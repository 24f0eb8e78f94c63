// src/tb/objects/pe.c:260-304: the linker's symbol table, open addressing with an odd step.

module SymbolTable {
  import opened Finite
  import opened Predecessors
  import opened Words

  datatype Symbol = Symbol(name: string, value: int)

  // ----- The probe sequence -----

  // (hash >> (32 - exp)) | 1
  function ProbeStep(hash: nat, exp: nat): (s: nat)
    requires exp <= 32
    ensures s % 2 == 1
  {
    var s := hash / Two(32 - exp);
    if s % 2 == 1 then s else s + 1
  }

  // The slot looked at after k others: i = (i + step) & mask, starting from the hash.
  function Probe(hash: nat, exp: nat, k: nat): (p: nat)
    requires exp <= 32
    ensures p < Two(exp)
  {
    Next(if k == 0 then hash else Probe(hash, exp, k - 1), ProbeStep(hash, exp), exp)
  }

  // (i + step) & mask
  function Next(i: nat, step: nat, exp: nat): (p: nat)
    ensures p < Two(exp)
  {
    (i + step) % Two(exp)
  }

  lemma {:induction false} ProbeIs(hash: nat, exp: nat, k: nat)
    requires exp <= 32
    ensures (k + 1) * ProbeStep(hash, exp) >= 0
    ensures Probe(hash, exp, k) == (hash + (k + 1) * ProbeStep(hash, exp)) % Two(exp)
  {
    hide Two, ProbeStep, Probe;
    var s := ProbeStep(hash, exp);
    ProbeUnfolds(hash, exp, k);
    if k == 0 {
      Once(s);
    } else {
      ProbeIs(hash, exp, k - 1);
      Accumulate(hash, s, Two(exp), Probe(hash, exp, k - 1), k);
    }
  }

  // The slots looked at, in terms of the hash: its upper bits, made odd, are the distance.
  lemma ProbeAt(hash: nat, exp: nat, k: nat)
    requires exp <= 32
    ensures Probe(hash, exp, k) == (hash + (k + 1) * (2 * (hash / Two(32 - exp) / 2) + 1)) % Two(exp)
  {
    ProbeIs(hash, exp, k);
    assert ProbeStep(hash, exp) == 2 * (hash / Two(32 - exp) / 2) + 1;
  }

  lemma ProbeUnfolds(hash: nat, exp: nat, k: nat)
    requires exp <= 32
    ensures k == 0 ==> Probe(hash, exp, k) == Next(hash, ProbeStep(hash, exp), exp)
    ensures k > 0 ==> Probe(hash, exp, k) == Next(Probe(hash, exp, k - 1), ProbeStep(hash, exp), exp)
  {
  }

  lemma Once(s: nat)
    ensures (0 + 1) * s == s
  {
  }

  lemma Accumulate(h: nat, s: nat, m: nat, p: nat, k: nat)
    requires m > 0 && k * s >= 0 && p == (h + k * s) % m
    ensures (k + 1) * s >= 0 && (p + s) % m == (h + (k + 1) * s) % m
  {
    OneMore(k, s);
    var x := h + k * s;
    ModAdd(x, s, m);
    assert x + s == h + (k + 1) * s;
  }

  lemma OneMore(k: nat, s: nat)
    ensures k * s >= 0 && (k + 1) * s == k * s + s
  {
  }

  lemma ModAdd(x: nat, s: nat, m: nat)
    requires m > 0
    ensures (x + s) % m == (x % m + s) % m
  {
    var q := x / m;
    assert x == q * m + x % m;
    ModShift(x % m + s, q, m);
  }

  lemma {:induction false} ModShift(y: int, q: int, m: nat)
    requires m > 0
    ensures (y + q * m) % m == y % m
  {
    DivUnique(y + q * m, m, y / m + q, y % m);
  }

  // An odd number has no common factor with a power of two.
  lemma {:induction false} OddFactor(s: nat, d: nat, e: nat)
    requires s % 2 == 1 && (d * s) % Two(e) == 0
    ensures d % Two(e) == 0
  {
    if e > 0 {
      var p := Two(e - 1);
      EvenHalf(d * s, p);
      OddEven(d, s);
      var h := d / 2;
      assert d == 2 * h;
      assert d * s == 2 * (h * s);
      OddFactor(s, h, e - 1);
      DoubleMod(h, p);
    }
  }

  lemma OddEven(d: nat, s: nat)
    requires s % 2 == 1 && (d * s) % 2 == 0
    ensures d % 2 == 0
  {
    if d % 2 == 1 { OddProduct(d / 2, s / 2); }
  }

  lemma OddProduct(a: nat, b: nat)
    ensures ((2 * a + 1) * (2 * b + 1)) % 2 == 1
  {
    calc {
      (2 * a + 1) * (2 * b + 1);
      (2 * a) * (2 * b + 1) + (2 * b + 1);
      2 * (a * (2 * b + 1) + b) + 1;
    }
  }

  lemma DoubleMod(h: nat, p: nat)
    requires p > 0 && h % p == 0
    ensures (2 * h) % (2 * p) == 0
  {
    var q := h / p;
    assert h == p * q;
    assert 2 * h == (2 * p) * q;
    MultipleMod(q, 2 * p);
  }

  // No slot is looked at twice before all have been.
  lemma ProbesDiffer(hash: nat, exp: nat, j: nat, k: nat)
    requires exp <= 32 && j < k < Two(exp)
    ensures Probe(hash, exp, j) != Probe(hash, exp, k)
  {
    hide *;
    var s, d := ProbeStep(hash, exp), k - j;
    Further(j, d, s);
    ProbeIs(hash, exp, j);
    ProbeIs(hash, exp, k);
    Away(hash + (j + 1) * s, d * s, d, s, exp);
  }

  // An odd distance taken fewer than 2^exp times does not lead back.
  lemma Away(x: nat, y: nat, d: nat, s: nat, exp: nat)
    requires s % 2 == 1 && 0 < d < Two(exp) && y == d * s
    ensures x % Two(exp) != (x + y) % Two(exp)
  {
    hide *;
    if x % Two(exp) == (x + y) % Two(exp) {
      SameMod(x, y, Two(exp));
      OddFactor(s, d, exp);
      SmallMod(d, Two(exp));
    }
  }

  lemma Further(j: nat, d: nat, s: nat)
    ensures (j + 1) * s >= 0 && d * s >= 0 && (j + d + 1) * s == (j + 1) * s + d * s
  {
  }

  lemma SmallMod(d: nat, m: nat)
    requires d < m
    ensures d % m == d
  {
  }

  lemma SameMod(x: nat, y: nat, m: nat)
    requires m > 0 && x % m == (x + y) % m
    ensures y % m == 0
  {
    var q, t := x / m, (x + y) / m;
    assert x == m * q + x % m && x + y == m * t + (x + y) % m;
    assert y == m * (t - q);
    MultipleMod(t - q, m);
  }

  ghost function Probes(hash: nat, exp: nat): (s: seq<nat>)
    requires exp <= 32
    ensures |s| == Two(exp) && forall k: nat :: k < |s| ==> s[k] == Probe(hash, exp, k)
  {
    seq(Two(exp), k requires 0 <= k < Two(exp) => Probe(hash, exp, k))
  }

  // So 2^exp probes look at every slot.
  lemma ProbesCover(hash: nat, exp: nat, p: nat) returns (k: nat)
    requires exp <= 32 && p < Two(exp)
    ensures k < Two(exp) && Probe(hash, exp, k) == p
  {
    var s := Probes(hash, exp);
    forall i, j | 0 <= i < j < |s| ensures s[i] != s[j] {
      ProbesDiffer(hash, exp, i, j);
    }
    DistinctSize(s);
    SameSizeSame(Elems(s), Range(Two(exp)));
    assert p in Elems(s);
    k :| k < |s| && s[k] == p;
  }

  // ----- The table -----

  // The first symbol appended under a name. A slot that holds the empty name is an empty slot, so
  // that nothing is ever found under it.
  ghost function FirstNamed(log: seq<Symbol>, name: string): Option<Symbol>
  {
    if log == [] then None
    else
      var earlier := FirstNamed(log[..|log| - 1], name);
      if earlier.Some? then earlier
      else if log[|log| - 1].name == name != "" then Some(log[|log| - 1]) else None
  }

  lemma FirstNamedPush(log: seq<Symbol>, sym: Symbol, name: string)
    ensures FirstNamed(log + [sym], name) ==
              if FirstNamed(log, name).Some? then FirstNamed(log, name)
              else if sym.name == name != "" then Some(sym) else None
  {
    assert (log + [sym])[..|log|] == log;
  }

  // How often the empty name was appended; len counts these too.
  ghost function Blanks(log: seq<Symbol>): nat
  {
    if log == [] then 0 else Blanks(log[..|log| - 1]) + if log[|log| - 1].name == "" then 1 else 0
  }

  lemma BlanksPush(log: seq<Symbol>, sym: Symbol)
    ensures Blanks(log + [sym]) == Blanks(log) + if sym.name == "" then 1 else 0
  {
    assert (log + [sym])[..|log|] == log;
  }

  ghost function Filled(ht: seq<Option<Symbol>>): nat
  {
    if ht == [] then 0 else Filled(ht[..|ht| - 1]) + if ht[|ht| - 1].Some? then 1 else 0
  }

  lemma {:induction false} FilledPut(ht: seq<Option<Symbol>>, p: nat, sym: Symbol)
    requires p < |ht| && ht[p].None?
    ensures Filled(ht[p := Some(sym)]) == Filled(ht) + 1
  {
    if p < |ht| - 1 {
      FilledPut(ht[..|ht| - 1], p, sym);
      assert ht[p := Some(sym)][..|ht| - 1] == ht[..|ht| - 1][p := Some(sym)];
    } else {
      assert ht[p := Some(sym)][..|ht| - 1] == ht[..|ht| - 1];
    }
  }

  lemma {:induction false} FilledBound(ht: seq<Option<Symbol>>, p: nat)
    requires p < |ht| && ht[p].None?
    ensures Filled(ht) < |ht|
  {
    if p < |ht| - 1 {
      FilledBound(ht[..|ht| - 1], p);
    } else {
      FilledMost(ht[..|ht| - 1]);
    }
  }

  lemma {:induction false} FilledMost(ht: seq<Option<Symbol>>)
    ensures Filled(ht) <= |ht|
  {
    if ht != [] { FilledMost(ht[..|ht| - 1]); }
  }

  lemma {:induction false} FilledAll(ht: seq<Option<Symbol>>)
    requires forall p :: 0 <= p < |ht| ==> ht[p].Some?
    ensures Filled(ht) == |ht|
  {
    if ht != [] { FilledAll(ht[..|ht| - 1]); }
  }

  // Before slot p the probes for its symbol met only occupied slots.
  ghost predicate LedTo(ht: seq<Option<Symbol>>, exp: nat, hash: nat, p: nat, k: nat)
    requires exp <= 32 && |ht| == Two(exp)
  {
    Probe(hash, exp, k) == p && forall j: nat :: j < k ==> ht[Probe(hash, exp, j)].Some?
  }

  // The symbol in slot p is the first of its name, and the probes for it lead there.
  ghost predicate SlotOk(ht: seq<Option<Symbol>>, exp: nat, murmur: string -> nat, log: seq<Symbol>, p: nat)
    requires exp <= 32 && |ht| == Two(exp) && p < |ht| && ht[p].Some?
  {
    var sym := ht[p].value;
    && sym.name != "" && FirstNamed(log, sym.name) == Some(sym)
    && exists k: nat :: LedTo(ht, exp, murmur(sym.name), p, k)
  }

  ghost predicate Stores(ht: seq<Option<Symbol>>, name: string)
  {
    exists p: nat :: p < |ht| && ht[p].Some? && ht[p].value.name == name
  }

  // The table holds the first symbol of every name appended.
  ghost predicate TableOk(ht: seq<Option<Symbol>>, exp: nat, murmur: string -> nat, log: seq<Symbol>)
  {
    && exp <= 32 && |ht| == Two(exp)
    && (forall p: nat :: p < |ht| && ht[p].Some? ==> SlotOk(ht, exp, murmur, log, p))
    && (forall name :: FirstNamed(log, name).Some? ==> Stores(ht, name))
  }

  // ----- When a search ends -----

  ghost predicate StopsAt(ht: seq<Option<Symbol>>, exp: nat, hash: nat, name: string, k: nat)
    requires exp <= 32 && |ht| == Two(exp)
  {
    var slot := ht[Probe(hash, exp, k)];
    slot.None? || slot.value.name == name
  }

  lemma StopMeans(ht: seq<Option<Symbol>>, exp: nat, hash: nat, name: string, k: nat)
    requires exp <= 32 && |ht| == Two(exp)
    ensures StopsAt(ht, exp, hash, name, k) <==>
              ht[Probe(hash, exp, k)].None? || ht[Probe(hash, exp, k)].value.name == name
  {
  }

  ghost predicate HasRoom(ht: seq<Option<Symbol>>)
  {
    exists p: nat :: p < |ht| && ht[p].None?
  }

  // The probes stop at slot i, after k others.
  ghost predicate FirstStop(ht: seq<Option<Symbol>>, exp: nat, hash: nat, name: string, k: nat, i: nat)
    requires exp <= 32 && |ht| == Two(exp)
  {
    && i == Probe(hash, exp, k) && StopsAt(ht, exp, hash, name, k)
    && forall j: nat :: j < k ==> !StopsAt(ht, exp, hash, name, j)
  }

  // A search ends, and within 2^exp probes, exactly when the name is stored or a slot is free.
  lemma SearchEnds(ht: seq<Option<Symbol>>, exp: nat, hash: nat, name: string)
    requires exp <= 32 && |ht| == Two(exp)
    ensures (exists k: nat :: StopsAt(ht, exp, hash, name, k)) <==> HasRoom(ht) || Stores(ht, name)
    ensures HasRoom(ht) || Stores(ht, name) ==> exists k: nat :: k < Two(exp) && StopsAt(ht, exp, hash, name, k)
  {
    hide Probe, Two;
    if HasRoom(ht) {
      var p: nat :| p < |ht| && ht[p].None?;
      var k := ProbesCover(hash, exp, p);
      assert StopsAt(ht, exp, hash, name, k);
    } else if Stores(ht, name) {
      var p: nat :| p < |ht| && ht[p].Some? && ht[p].value.name == name;
      var k := ProbesCover(hash, exp, p);
      assert StopsAt(ht, exp, hash, name, k);
    }
  }

  // An empty slot on the way means that the name was never appended; a slot with the name holds
  // the first symbol of that name.
  lemma FoundAt(ht: seq<Option<Symbol>>, exp: nat, murmur: string -> nat, log: seq<Symbol>, name: string, k: nat)
    requires TableOk(ht, exp, murmur, log) && StopsAt(ht, exp, murmur(name), name, k)
    requires forall j: nat :: j < k ==> !StopsAt(ht, exp, murmur(name), name, j)
    ensures ht[Probe(murmur(name), exp, k)] == FirstNamed(log, name)
  {
    hide Probe, Two, FirstNamed;
    var hash := murmur(name);
    var p := Probe(hash, exp, k);
    if ht[p].Some? {
      assert SlotOk(ht, exp, murmur, log, p);
    } else if FirstNamed(log, name).Some? {
      assert Stores(ht, name);
      var q: nat :| q < |ht| && ht[q].Some? && ht[q].value.name == name;
      assert SlotOk(ht, exp, murmur, log, q);
      var i: nat :| LedTo(ht, exp, hash, q, i);
      assert StopsAt(ht, exp, hash, name, i);
    }
  }

  lemma PresentKeeps(ht: seq<Option<Symbol>>, exp: nat, murmur: string -> nat, log: seq<Symbol>, sym: Symbol)
    requires TableOk(ht, exp, murmur, log) && (FirstNamed(log, sym.name).Some? || sym.name == "")
    ensures TableOk(ht, exp, murmur, log + [sym])
  {
    forall name ensures FirstNamed(log + [sym], name) == FirstNamed(log, name) {
      FirstNamedPush(log, sym, name);
    }
    hide FirstNamed, Probe, Two;
    forall p: nat | p < |ht| && ht[p].Some? ensures SlotOk(ht, exp, murmur, log + [sym], p) {
      assert SlotOk(ht, exp, murmur, log, p);
    }
  }

  lemma StoredKeeps(ht: seq<Option<Symbol>>, exp: nat, murmur: string -> nat, log: seq<Symbol>, sym: Symbol, k: nat)
    requires TableOk(ht, exp, murmur, log) && FirstNamed(log, sym.name).None? && sym.name != ""
    requires forall j: nat :: j < k ==> !StopsAt(ht, exp, murmur(sym.name), sym.name, j)
    requires ht[Probe(murmur(sym.name), exp, k)].None?
    ensures TableOk(ht[Probe(murmur(sym.name), exp, k) := Some(sym)], exp, murmur, log + [sym])
  {
    hide Probe, Two;
    var p := Probe(murmur(sym.name), exp, k);
    var ht1, log1 := ht[p := Some(sym)], log + [sym];
    forall name ensures FirstNamed(log1, name) == if name == sym.name then Some(sym) else FirstNamed(log, name) {
      FirstNamedPush(log, sym, name);
    }
    hide FirstNamed;
    forall q: nat | q < |ht1| && ht1[q].Some? ensures SlotOk(ht1, exp, murmur, log1, q) {
      if q == p {
        forall j: nat | j < k ensures ht1[Probe(murmur(sym.name), exp, j)].Some? {
          assert !StopsAt(ht, exp, murmur(sym.name), sym.name, j);
        }
        assert LedTo(ht1, exp, murmur(sym.name), p, k);
      } else {
        assert SlotOk(ht, exp, murmur, log, q);
        var i: nat :| LedTo(ht, exp, murmur(ht[q].value.name), q, i);
        assert LedTo(ht1, exp, murmur(ht1[q].value.name), q, i);
      }
    }
    forall name | FirstNamed(log1, name).Some? ensures Stores(ht1, name) {
      if name == sym.name {
        assert ht1[p].value.name == name;
      } else {
        var q: nat :| q < |ht| && ht[q].Some? && ht[q].value.name == name;
        assert ht1[q] == ht[q];
      }
    }
  }

  // Full is the branch that prints that the table is out of memory and aborts.
  datatype Appended = Stored | Present | Full

  class Table {
    const exp: nat
    const murmur: string -> nat
    const ht: array<Option<Symbol>>
    var len: nat
    ghost var log: seq<Symbol>      // everything appended so far

    ghost predicate Valid()
      reads this, ht
    {
      exp <= 32 && ht.Length == Two(exp) && len == Filled(ht[..]) + Blanks(log) && TableOk(ht[..], exp, murmur, log)
    }

    constructor (exp: nat, murmur: string -> nat)
      requires exp <= 32
      ensures Valid() && log == [] && len == 0 && this.exp == exp && this.murmur == murmur && fresh(ht)
    {
      this.exp, this.murmur, len, log := exp, murmur, 0, [];
      ht := new Option<Symbol>[Two(exp)](_ => None);
      new;
      NoneFilled(ht[..]);
    }

    // The loop that find_symbol and append_symbol share.
    method Search(name: string) returns (i: nat)
      requires Valid() && (HasRoom(ht[..]) || Stores(ht[..], name))
      ensures i < ht.Length && exists k: nat :: FirstStop(ht[..], exp, murmur(name), name, k, i)
    {
      hide Probe, TableOk, Filled, HasRoom, Stores, Next, Two, ProbeStep, StopsAt;
      var hash := murmur(name);
      SearchEnds(ht[..], exp, hash, name);
      ghost var last: nat :| last < Two(exp) && StopsAt(ht[..], exp, hash, name, last);
      ghost var k: nat := 0;
      var step := ProbeStep(hash, exp);
      ProbeUnfolds(hash, exp, 0);
      i := Next(hash, step, exp);
      StopMeans(ht[..], exp, hash, name, 0);
      while ht[i].Some? && ht[i].value.name != name
        invariant i == Probe(hash, exp, k) < ht.Length && k <= last
        invariant StopsAt(ht[..], exp, hash, name, k) <==> ht[i].None? || ht[i].value.name == name
        invariant forall j: nat :: j < k ==> !StopsAt(ht[..], exp, hash, name, j)
        decreases last - k
      {
        k := k + 1;
        ProbeUnfolds(hash, exp, k);
        i := Next(i, step, exp);
        StopMeans(ht[..], exp, hash, name, k);
      }
      assert FirstStop(ht[..], exp, hash, name, k, i);
    }

    // find_symbol: exactly the first symbol appended under the name.
    method Find(name: string) returns (r: Option<Symbol>)
      requires Valid() && (HasRoom(ht[..]) || Stores(ht[..], name))
      ensures r == FirstNamed(log, name)
    {
      hide Probe, TableOk, Filled, FirstNamed;
      var i := Search(name);
      ghost var k: nat :| FirstStop(ht[..], exp, murmur(name), name, k, i);
      FoundAt(ht[..], exp, murmur, log, name, k);
      return ht[i];
    }

    // append_symbol
    method Append(sym: Symbol) returns (r: Appended)
      requires Valid() && (HasRoom(ht[..]) || Stores(ht[..], sym.name))
      modifies this, ht
      ensures Valid() && log == old(log) + if r.Full? then [] else [sym]
      ensures r == if FirstNamed(old(log), sym.name).Some? then Present
                   else if old(len) >= Two(exp) then Full else Stored
    {
      hide Probe, TableOk, Filled, FirstNamed, HasRoom, Stores, Blanks, Two;
      var i := Search(sym.name);
      ghost var k: nat :| FirstStop(ht[..], exp, murmur(sym.name), sym.name, k, i);
      FoundAt(ht[..], exp, murmur, log, sym.name, k);
      BlanksPush(log, sym);
      if ht[i].None? {
        if len > Two(exp) - 1 {
          return Full;
        }
        len := len + 1;
        if sym.name != "" {
          FilledPut(ht[..], i, sym);
          StoredKeeps(ht[..], exp, murmur, log, sym, k);
          ghost var after := ht[..][i := Some(sym)];
          ht[i] := Some(sym);
          assert ht[..] == after;
        } else {
          PresentKeeps(ht[..], exp, murmur, log, sym);
        }
        log := log + [sym];
        return Stored;
      }
      PresentKeeps(ht[..], exp, murmur, log, sym);
      NamedThere(ht[..], exp, murmur, log, i);
      log := log + [sym];
      return Present;
    }
  }

  lemma NamedThere(ht: seq<Option<Symbol>>, exp: nat, murmur: string -> nat, log: seq<Symbol>, p: nat)
    requires TableOk(ht, exp, murmur, log) && p < |ht| && ht[p].Some?
    ensures ht[p].value.name != ""
  {
    assert SlotOk(ht, exp, murmur, log, p);
  }

  // Without empty names the table is never out of memory while a search can end at a free slot.
  lemma FullMeans(ht: seq<Option<Symbol>>, log: seq<Symbol>, exp: nat)
    requires exp <= 32 && |ht| == Two(exp) && HasRoom(ht) && Filled(ht) + Blanks(log) >= Two(exp)
    ensures exists i :: 0 <= i < |log| && log[i].name == ""
  {
    hide Two;
    RoomIff(ht);
    BlanksCount(log);
  }

  lemma {:induction false} BlanksCount(log: seq<Symbol>)
    ensures Blanks(log) > 0 ==> exists i :: 0 <= i < |log| && log[i].name == ""
  {
    if log != [] { BlanksCount(log[..|log| - 1]); }
  }

  // With them it may be: each takes a place in the count and none in the table.
  method BlankFills(murmur: string -> nat) returns (t: Table, r: Appended)
    ensures r == Full && HasRoom(t.ht[..])
  {
    hide Probe, Next, ProbeStep;
    t := new Table(0, murmur);
    NothingStored(t.ht[..], murmur, []);
    r := t.Append(Symbol("", 0));
    ghost var log := [Symbol("", 0)];
    assert t.log == log && log[..0] == [];
    assert forall name :: FirstNamed(log, name).None?;
    NothingStored(t.ht[..], murmur, log);
    r := t.Append(Symbol("a", 1));
    NothingStored(t.ht[..], murmur, log);
  }

  lemma NothingStored(ht: seq<Option<Symbol>>, murmur: string -> nat, log: seq<Symbol>)
    requires TableOk(ht, 0, murmur, log) && forall name :: FirstNamed(log, name).None?
    ensures |ht| == 1 && ht[0].None? && HasRoom(ht) && Filled(ht) == 0
  {
    hide Probe;
    assert Two(0) == 1;
    assert ht[..0] == [];
  }

  lemma {:induction false} NoneFilled(ht: seq<Option<Symbol>>)
    requires forall p :: 0 <= p < |ht| ==> ht[p].None?
    ensures Filled(ht) == 0
  {
    if ht != [] { NoneFilled(ht[..|ht| - 1]); }
  }

  // There is room as long as fewer names than slots have been stored.
  lemma {:induction false} RoomIff(ht: seq<Option<Symbol>>)
    ensures HasRoom(ht) <==> Filled(ht) < |ht|
  {
    if HasRoom(ht) {
      var p: nat :| p < |ht| && ht[p].None?;
      FilledBound(ht, p);
    } else {
      FilledAll(ht);
    }
  }
}
