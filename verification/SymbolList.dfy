// src/tb/symbols.c:3-30: symbols are put on a list by any number of threads at once, without
// locks. Each thread puts one symbol there, in four atomic steps; a schedule says whose step
// comes next.

module SymbolList {
  import opened Finite
  import opened Predecessors

  datatype Progress =
    | Start                          // before the count is raised
    | Counted                        // before the compare-exchange on `first`
    | Claimed(won: bool)             // before the exchange of `last`
    | Exchanged(prev: Option<nat>)   // before the link from the previous last symbol
    | Done

  // Symbols go by the numbers of their threads. `order` is the order of the exchanges so far.
  datatype List = List(
    threads: seq<Progress>,
    next: seq<Option<nat>>,
    first: Option<nat>,
    last: Option<nat>,
    count: nat,
    order: seq<nat>)

  function Init(n: nat): List
  {
    List(seq(n, _ => Start), seq(n, _ => None), None, None, 0, [])
  }

  ghost predicate Sized(l: List)
  {
    |l.next| == |l.threads| && forall i :: 0 <= i < |l.order| ==> l.order[i] < |l.threads|
  }

  // The next atomic step of thread t.
  function Step(l: List, t: nat): List
    requires Sized(l) && t < |l.threads|
    requires (l.threads[t].Exchanged? && l.threads[t].prev.Some? ==> l.threads[t].prev.value < |l.next|)
  {
    match l.threads[t]
    case Start => l.(threads := l.threads[t := Counted], count := l.count + 1)
    case Counted =>
      if l.first.None? then l.(threads := l.threads[t := Claimed(true)], first := Some(t))
      else l.(threads := l.threads[t := Claimed(false)])
    case Claimed(_) => l.(threads := l.threads[t := Exchanged(l.last)], last := Some(t), order := l.order + [t])
    case Exchanged(prev) =>
      if prev.Some? then l.(threads := l.threads[t := Done], next := l.next[prev.value := Some(t)])
      else l.(threads := l.threads[t := Done])
    case Done => l
  }

  // ----- What every interleaving keeps -----

  predicate InList(p: Progress)
  {
    p.Exchanged? || p.Done?
  }

  // The exchanges so far form a sequence of different symbols, those whose threads are past it.
  ghost predicate OrderOk(l: List)
  {
    && (forall i, j :: 0 <= i < j < |l.order| ==> l.order[i] != l.order[j])
    && (forall i :: 0 <= i < |l.order| ==> l.order[i] < |l.threads| && InList(l.threads[l.order[i]]))
    && (forall t: nat :: t < |l.threads| && InList(l.threads[t]) ==> t in l.order)
    && l.last == if l.order == [] then None else Some(l.order[|l.order| - 1])
  }

  // A symbol's predecessor is the one exchanged just before it; the link from there is set
  // exactly when its thread is done. No other link is set.
  ghost predicate LinkOk(l: List, i: nat)
    requires i < |l.order| && l.order[i] < |l.threads| && Sized(l)
  {
    var t, before := l.order[i], if i > 0 then Some(l.order[i - 1]) else None;
    && (l.threads[t].Exchanged? ==> l.threads[t].prev == before)
    && (i > 0 ==> l.next[l.order[i - 1]] == if l.threads[t].Done? then Some(t) else None)
  }

  ghost predicate LinksOk(l: List)
    requires Sized(l)
  {
    && (forall i: nat :: i < |l.order| ==> LinkOk(l, i))
    && (forall t: nat :: t < |l.threads| && (t !in l.order || l.last == Some(t)) ==> l.next[t].None?)
  }

  // `first` is the symbol of the one thread that won the compare-exchange.
  ghost predicate FirstOk(l: List)
  {
    if l.first.None? then forall t: nat :: t < |l.threads| ==> l.threads[t].Start? || l.threads[t].Counted?
    else
      && l.first.value < |l.threads|
      && (l.threads[l.first.value] == Claimed(true) || InList(l.threads[l.first.value]))
      && forall t: nat :: t < |l.threads| && l.threads[t] == Claimed(true) ==> t == l.first.value
  }

  ghost function Begun(ts: seq<Progress>): nat
  {
    if ts == [] then 0 else Begun(ts[..|ts| - 1]) + if ts[|ts| - 1].Start? then 0 else 1
  }

  ghost predicate Inv(l: List)
  {
    Sized(l) && OrderOk(l) && LinksOk(l) && FirstOk(l) && l.count == Begun(l.threads)
  }

  lemma {:induction false} BegunStep(ts: seq<Progress>, t: nat, p: Progress)
    requires t < |ts| && !p.Start?
    ensures Begun(ts[t := p]) == Begun(ts) + if ts[t].Start? then 1 else 0
  {
    if t < |ts| - 1 {
      BegunStep(ts[..|ts| - 1], t, p);
      assert ts[t := p][..|ts| - 1] == ts[..|ts| - 1][t := p];
    } else {
      assert ts[t := p][..|ts| - 1] == ts[..|ts| - 1];
    }
  }

  lemma StepDefined(l: List, t: nat)
    requires Inv(l) && t < |l.threads|
    ensures l.threads[t].Exchanged? && l.threads[t].prev.Some? ==> l.threads[t].prev.value < |l.next|
  {
    if l.threads[t].Exchanged? {
      var i: nat :| i < |l.order| && l.order[i] == t;
      assert LinkOk(l, i);
    }
  }

  lemma StepKeeps(l: List, t: nat)
    requires Inv(l) && t < |l.threads|
    requires l.threads[t].Exchanged? && l.threads[t].prev.Some? ==> l.threads[t].prev.value < |l.next|
    ensures Inv(Step(l, t))
  {
    match l.threads[t] {
      case Start => EarlyStep(l, t);
      case Counted => EarlyStep(l, t);
      case Claimed(_) => ExchangeStep(l, t);
      case Exchanged(_) => LinkStep(l, t);
      case Done =>
    }
  }

  // Steps before the exchange leave the order and the links alone.
  lemma EarlyStep(l: List, t: nat)
    requires Inv(l) && t < |l.threads| && (l.threads[t].Start? || l.threads[t].Counted?)
    ensures Inv(Step(l, t))
  {
    var m := Step(l, t);
    BegunStep(l.threads, t, m.threads[t]);
    hide Begun, LinksOk, OrderOk, FirstOk;
    NotYet(l, t);
    SameLinks(l, m, t);
    SameOrder(l, m, t);
    NewFirst(l, m, t);
  }

  lemma NotYet(l: List, t: nat)
    requires OrderOk(l) && t < |l.threads| && !InList(l.threads[t])
    ensures t !in l.order
  {
  }

  lemma SameOrder(l: List, m: List, t: nat)
    requires OrderOk(l) && t < |l.threads| == |m.threads| && m.order == l.order && m.last == l.last
    requires (InList(l.threads[t]) <==> InList(m.threads[t]))
    requires forall u: nat :: u < |l.threads| && u != t ==> m.threads[u] == l.threads[u]
    ensures OrderOk(m)
  {
  }

  lemma NewFirst(l: List, m: List, t: nat)
    requires FirstOk(l) && t < |l.threads| == |m.threads|
    requires forall u: nat :: u < |l.threads| && u != t ==> m.threads[u] == l.threads[u]
    requires l.threads[t].Start? && m.threads[t].Counted? ==> m.first == l.first
    requires l.threads[t].Counted? ==> if l.first.None? then m.first == Some(t) && m.threads[t] == Claimed(true)
                                       else m.first == l.first && m.threads[t] == Claimed(false)
    requires l.threads[t].Start? ==> m.threads[t].Counted?
    requires l.threads[t].Claimed? || InList(l.threads[t]) ==> InList(m.threads[t]) && m.first == l.first
    ensures FirstOk(m)
  {
  }

  lemma SameLinks(l: List, m: List, t: nat)
    requires Sized(l) && LinksOk(l) && OrderOk(l) && t < |l.threads| && t !in l.order
    requires m.next == l.next && m.order == l.order && m.last == l.last && |m.threads| == |l.threads|
    requires forall u: nat :: u < |l.threads| && u != t ==> m.threads[u] == l.threads[u]
    ensures Sized(m) && LinksOk(m)
  {
    forall i: nat | i < |m.order| ensures LinkOk(m, i) {
      assert LinkOk(l, i);
    }
  }

  lemma ExchangeStep(l: List, t: nat)
    requires Inv(l) && t < |l.threads| && l.threads[t].Claimed?
    ensures Inv(Step(l, t))
  {
    hide Begun, FirstOk, OrderOk, LinksOk;
    var m := Step(l, t);
    BegunStep(l.threads, t, m.threads[t]);
    NotYet(l, t);
    NewFirst(l, m, t);
    OrderGrows(l, m, t);
    LinksGrow(l, m, t);
  }

  lemma OrderGrows(l: List, m: List, t: nat)
    requires OrderOk(l) && t < |l.threads| && t !in l.order && m.order == l.order + [t] && m.last == Some(t)
    requires |m.threads| == |l.threads| && InList(m.threads[t])
    requires forall u: nat :: u < |l.threads| && u != t ==> m.threads[u] == l.threads[u]
    ensures OrderOk(m)
  {
    forall u: nat | u < |m.threads| && InList(m.threads[u]) ensures u in m.order {
      if u != t { assert u in l.order; }
    }
  }

  lemma LinksGrow(l: List, m: List, t: nat)
    requires Sized(l) && LinksOk(l) && OrderOk(l) && t < |l.threads| && t !in l.order && m.order == l.order + [t]
    requires m.last == Some(t)
    requires |m.threads| == |l.threads| && m.threads[t] == Exchanged(l.last) && m.next == l.next
    requires forall u: nat :: u < |l.threads| && u != t ==> m.threads[u] == l.threads[u]
    ensures Sized(m) && LinksOk(m)
  {
    forall i: nat | i < |m.order| ensures LinkOk(m, i) {
      if i < |l.order| { assert LinkOk(l, i); }
    }
  }

  lemma LinkStep(l: List, t: nat)
    requires Inv(l) && t < |l.threads| && l.threads[t].Exchanged?
    requires l.threads[t].prev.Some? ==> l.threads[t].prev.value < |l.next|
    ensures Inv(Step(l, t))
  {
    var m := Step(l, t);
    BegunStep(l.threads, t, m.threads[t]);
    hide Begun, OrderOk, FirstOk, LinksOk;
    var k := IndexOf(l, t);
    NewLink(l, m, t, k);
    SameOrder(l, m, t);
    NewFirst(l, m, t);
  }

  lemma IndexOf(l: List, t: nat) returns (k: nat)
    requires Sized(l) && OrderOk(l) && LinksOk(l) && t < |l.threads| && l.threads[t].Exchanged?
    ensures k < |l.order| && l.order[k] == t && l.threads[t] == Exchanged(if k > 0 then Some(l.order[k - 1]) else None)
  {
    assert InList(l.threads[t]);
    k :| k < |l.order| && l.order[k] == t;
    assert LinkOk(l, k);
  }

  lemma NewLink(l: List, m: List, t: nat, k: nat)
    requires Sized(l) && OrderOk(l) && LinksOk(l) && t < |l.threads| && k < |l.order| && l.order[k] == t
    requires l.threads[t] == Exchanged(if k > 0 then Some(l.order[k - 1]) else None)
    requires m ==
              l.(threads := l.threads[t := Done], next := if k > 0 then l.next[l.order[k - 1] := Some(t)] else l.next)
    ensures Sized(m) && LinksOk(m)
  {
    forall i: nat | i < |m.order| ensures LinkOk(m, i) {
      assert LinkOk(l, i);
    }
    forall u: nat | u < |m.threads| && (u !in m.order || m.last == Some(u)) ensures m.next[u].None? {
      if k > 0 { assert l.order[k - 1] in l.order && l.order[k - 1] != l.order[|l.order| - 1]; }
    }
  }

  // ----- Whole schedules -----

  ghost predicate Schedule(n: nat, s: seq<nat>)
  {
    forall i :: 0 <= i < |s| ==> s[i] < n
  }

  lemma {:induction false} NoneBegun(n: nat)
    ensures Begun(Init(n).threads) == 0
  {
    if n > 0 {
      NoneBegun(n - 1);
      assert Init(n).threads[..n - 1] == Init(n - 1).threads;
    }
  }

  ghost function Run(n: nat, s: seq<nat>): (l: List)
    requires Schedule(n, s)
    ensures Inv(l) && |l.threads| == n
    decreases |s|
  {
    hide Begun, OrderOk, LinksOk, FirstOk;
    if s == [] then
      InitOk(n);
      Init(n)
    else
      var l := Run(n, s[..|s| - 1]);
      StepDefined(l, s[|s| - 1]);
      StepKeeps(l, s[|s| - 1]);
      Step(l, s[|s| - 1])
  }

  lemma InitOk(n: nat)
    ensures Inv(Init(n))
  {
    NoneBegun(n);
  }

  function Steps(p: Progress): nat
  {
    match p
    case Start => 0
    case Counted => 1
    case Claimed(_) => 2
    case Exchanged(_) => 3
    case Done => 4
  }

  lemma StepCounts(l: List, t: nat, u: nat)
    requires Sized(l) && t < |l.threads| && u < |l.threads|
    requires l.threads[t].Exchanged? && l.threads[t].prev.Some? ==> l.threads[t].prev.value < |l.next|
    ensures |Step(l, t).threads| == |l.threads|
    ensures Steps(Step(l, t).threads[u]) == Steps(l.threads[u]) + if u == t && Steps(l.threads[u]) < 4 then 1 else 0
  {
  }

  // No thread ever waits: after four turns it is done.
  lemma {:induction false} TurnsTaken(n: nat, s: seq<nat>, t: nat)
    requires Schedule(n, s) && t < n
    ensures Steps(Run(n, s).threads[t]) == if Count(s, t) < 4 then Count(s, t) else 4
    decreases |s|
  {
    hide Inv, Step, Steps;
    if s == [] {
      assert Steps(Start) == 0 by { StartsAtZero(); }
    } else {
      var last := s[|s| - 1];
      TurnsTaken(n, s[..|s| - 1], t);
      RunStep(n, s);
      StepCounts(Run(n, s[..|s| - 1]), last, t);
    }
  }

  lemma StartsAtZero()
    ensures Steps(Start) == 0
  {
  }

  lemma RunStep(n: nat, s: seq<nat>)
    requires Schedule(n, s) && s != []
    ensures var l := Run(n, s[..|s| - 1]); var t := s[|s| - 1];
            && Sized(l) && (l.threads[t].Exchanged? && l.threads[t].prev.Some? ==> l.threads[t].prev.value < |l.next|)
            && Run(n, s) == Step(l, t)
  {
    StepDefined(Run(n, s[..|s| - 1]), s[|s| - 1]);
  }

  ghost predicate AllDone(l: List)
  {
    forall t: nat :: t < |l.threads| ==> l.threads[t].Done?
  }

  lemma AllDoneIff(n: nat, s: seq<nat>)
    requires Schedule(n, s)
    ensures AllDone(Run(n, s)) <==> forall t: nat :: t < n ==> Count(s, t) >= 4
  {
    hide Inv, Run, Count;
    var l := Run(n, s);
    if AllDone(l) {
      forall t: nat | t < n ensures Count(s, t) >= 4 {
        TurnsTaken(n, s, t);
        assert l.threads[t].Done?;
      }
    } else {
      var t: nat :| t < |l.threads| && !l.threads[t].Done?;
      TurnsTaken(n, s, t);
      assert Count(s, t) < 4;
    }
  }

  // ----- The finished list -----

  // What following `next` from a symbol reaches.
  ghost function Walk(next: seq<Option<nat>>, at: Option<nat>, fuel: nat): seq<nat>
    decreases fuel
  {
    if fuel == 0 || at.None? || at.value >= |next| then [] else [at.value] + Walk(next, next[at.value], fuel - 1)
  }

  lemma {:induction false} BegunAll(ts: seq<Progress>)
    requires forall t: nat :: t < |ts| ==> !ts[t].Start?
    ensures Begun(ts) == |ts|
  {
    if ts != [] { BegunAll(ts[..|ts| - 1]); }
  }

  // From the k-th symbol the links lead through all later ones, in the order of the exchanges.
  lemma {:induction false} WalkFrom(l: List, k: nat, fuel: nat)
    requires Inv(l) && AllDone(l) && k < |l.order| && fuel >= |l.order| - k
    ensures Walk(l.next, Some(l.order[k]), fuel) == l.order[k..]
    decreases |l.order| - k
  {
    if k == |l.order| - 1 {
      assert Walk(l.next, l.next[l.order[k]], fuel - 1) == [];
    } else {
      assert LinkOk(l, k + 1);
      WalkFrom(l, k + 1, fuel - 1);
    }
  }

  lemma FinishedOrder(l: List)
    requires Inv(l) && AllDone(l) && |l.threads| > 0
    ensures l.count == |l.threads| == |l.order| && l.last == Some(l.order[|l.order| - 1])
    ensures forall t: nat :: t < |l.threads| ==> t in l.order
    ensures forall i, j :: 0 <= i < j < |l.order| ==> l.order[i] != l.order[j]
  {
    hide Begun, LinksOk, FirstOk;
    BegunAll(l.threads);
    forall t: nat | t < |l.threads| ensures t in l.order {
      assert InList(l.threads[t]);
    }
    OrderSize(l.order, |l.threads|);
  }

  lemma FirstPlace(l: List) returns (k: nat)
    requires Inv(l) && AllDone(l) && |l.threads| > 0
    ensures k < |l.order| && l.first == Some(l.order[k])
  {
    hide LinksOk, Begun;
    assert l.threads[0].Done?;
    k :| k < |l.order| && l.order[k] == l.first.value;
  }

  // The theorem: whatever the interleaving, when all appenders have finished the list counts
  // every symbol, `last` is the end of one chain through all of them in the order of the
  // exchanges, and from `first` one reaches the part of it that begins there.
  lemma FinishedList(n: nat, s: seq<nat>)
    requires Schedule(n, s) && AllDone(Run(n, s)) && n > 0
    ensures var l := Run(n, s);
            && l.count == n == |l.order|
            && (forall t: nat :: t < n ==> t in l.order)
            && (forall i, j :: 0 <= i < j < n ==> l.order[i] != l.order[j])
            && l.last == Some(l.order[n - 1]) && Walk(l.next, Some(l.order[0]), n) == l.order
            && exists k: nat :: k < n && l.first == Some(l.order[k]) && Walk(l.next, l.first, n) == l.order[k..]
  {
    hide Run, Walk, Inv, AllDone;
    var l := Run(n, s);
    FinishedOrder(l);
    WalkFrom(l, 0, n);
    var k := FirstPlace(l);
    WalkFrom(l, k, n);
    assert l.order[0..] == l.order;
  }

  // The thread that is the first to take its k-th turn.
  ghost function FirstTo(s: seq<nat>, k: nat): Option<nat>
  {
    if s == [] then None
    else
      var t, e := s[|s| - 1], FirstTo(s[..|s| - 1], k);
      if e.None? && Count(s, t) == k then Some(t) else e
  }

  // The second turn of a thread is its compare-exchange, the third its exchange of `last`.
  lemma {:induction false} FirstTurns(n: nat, s: seq<nat>)
    requires Schedule(n, s)
    ensures Run(n, s).first == FirstTo(s, 2)
    ensures var o := Run(n, s).order; FirstTo(s, 3) == if o == [] then None else Some(o[0])
    decreases |s|
  {
    hide Inv;
    if s != [] {
      var front, t := s[..|s| - 1], s[|s| - 1];
      FirstTurns(n, front);
      TurnsTaken(n, front, t);
      RunStep(n, s);
    }
  }

  // So a walk from `first` sees every symbol if and only if the thread that is the first to take its
  // second turn is also the first to take its third.
  lemma HeadExact(n: nat, s: seq<nat>)
    requires Schedule(n, s) && AllDone(Run(n, s)) && n > 0
    ensures var l := Run(n, s); Walk(l.next, l.first, n) == l.order <==> FirstTo(s, 2) == FirstTo(s, 3)
  {
    FinishedList(n, s);
    FirstTurns(n, s);
    var l := Run(n, s);
    var k: nat :| k < n && l.first == Some(l.order[k]) && Walk(l.next, l.first, n) == l.order[k..];
    assert l.order[0..] == l.order;
  }

  // Two appenders that overtake each other leave such a list: the symbol of the second is lost
  // to a walk from `first`.
  lemma HeadLost()
    ensures Schedule(2, [0, 0, 1, 1, 1, 0, 1, 0])
    ensures var l := Run(2, [0, 0, 1, 1, 1, 0, 1, 0]);
            AllDone(l) && l.count == 2 && l.order == [1, 0] && l.first == Some(0) && Walk(l.next, l.first, 2) == [0]
  {
    FirstHalf();
    hide Run, Inv;
    SecondHalf();
    assert Walk([None, Some(0)], None, 1) == [];
  }

  function Midway(): List
  {
    List([Claimed(true), Claimed(false)], [None, None], Some(0), None, 2, [])
  }

  lemma FirstHalf()
    ensures Schedule(2, [0, 0, 1, 1]) && Run(2, [0, 0, 1, 1]) == Midway()
  {
    FirstQuarter();
    hide Run, Inv;
    var l3 := List([Claimed(true), Counted], [None, None], Some(0), None, 2, []);
    Push([0, 0], 1, [0, 0, 1], List([Claimed(true), Start], [None, None], Some(0), None, 1, []), l3);
    Push([0, 0, 1], 1, [0, 0, 1, 1], l3, Midway());
  }

  lemma FirstQuarter()
    ensures Schedule(2, [0, 0]) && Run(2, [0, 0]) == List([Claimed(true), Start], [None, None], Some(0), None, 1, [])
  {
    Beginning();
    hide Run, Inv;
    var l1 := List([Counted, Start], [None, None], None, None, 1, []);
    Push([], 0, [0], List([Start, Start], [None, None], None, None, 0, []), l1);
    Push([0], 0, [0, 0], l1, List([Claimed(true), Start], [None, None], Some(0), None, 1, []));
  }

  lemma Beginning()
    ensures Run(2, []) == List([Start, Start], [None, None], None, None, 0, [])
  {
    hide Inv;
    assert [Start, Start] == Init(2).threads && [None, None] == Init(2).next;
  }

  lemma ThirdQuarter()
    requires Schedule(2, [0, 0, 1, 1]) && Run(2, [0, 0, 1, 1]) == Midway()
    ensures Schedule(2, [0, 0, 1, 1, 1, 0])
    ensures Run(2, [0, 0, 1, 1, 1, 0]) ==
              List([Exchanged(Some(1)), Exchanged(None)], [None, None], Some(0), Some(0), 2, [1, 0])
  {
    hide Run, Inv;
    var l5 := List([Claimed(true), Exchanged(None)], [None, None], Some(0), Some(1), 2, [1]);
    Push([0, 0, 1, 1], 1, [0, 0, 1, 1, 1], Midway(), l5);
    Push([0, 0, 1, 1, 1], 0, [0, 0, 1, 1, 1, 0], l5,
         List([Exchanged(Some(1)), Exchanged(None)], [None, None], Some(0), Some(0), 2, [1, 0]));
  }

  lemma SecondHalf()
    requires Schedule(2, [0, 0, 1, 1]) && Run(2, [0, 0, 1, 1]) == Midway()
    ensures Schedule(2, [0, 0, 1, 1, 1, 0, 1, 0])
    ensures Run(2, [0, 0, 1, 1, 1, 0, 1, 0]) == List([Done, Done], [None, Some(0)], Some(0), Some(0), 2, [1, 0])
  {
    hide Run, Inv, Step;
    ThirdQuarter();
    var l6 := List([Exchanged(Some(1)), Exchanged(None)], [None, None], Some(0), Some(0), 2, [1, 0]);
    var l7 := List([Exchanged(Some(1)), Done], [None, None], Some(0), Some(0), 2, [1, 0]);
    LastSteps();
    Push([0, 0, 1, 1, 1, 0], 1, [0, 0, 1, 1, 1, 0, 1], l6, l7);
    Push([0, 0, 1, 1, 1, 0, 1], 0, [0, 0, 1, 1, 1, 0, 1, 0], l7,
         List([Done, Done], [None, Some(0)], Some(0), Some(0), 2, [1, 0]));
  }

  lemma LastSteps()
    ensures var l6 := List([Exchanged(Some(1)), Exchanged(None)], [None, None], Some(0), Some(0), 2, [1, 0]);
            Step(l6, 1) == List([Exchanged(Some(1)), Done], [None, None], Some(0), Some(0), 2, [1, 0])
    ensures var l7 := List([Exchanged(Some(1)), Done], [None, None], Some(0), Some(0), 2, [1, 0]);
            Step(l7, 0) == List([Done, Done], [None, Some(0)], Some(0), Some(0), 2, [1, 0])
  {
  }

  lemma Push(s: seq<nat>, t: nat, s1: seq<nat>, l: List, m: List)
    requires t < 2 && Schedule(2, s) && Run(2, s) == l && Sized(l) && t < |l.threads| && s1 == s + [t]
    requires l.threads[t].Exchanged? && l.threads[t].prev.Some? ==> l.threads[t].prev.value < |l.next|
    requires Step(l, t) == m
    ensures Schedule(2, s1) && Run(2, s1) == m
  {
    hide Run, Step, Inv;
    assert s1[..|s|] == s;
    RunStep(2, s1);
  }
}
