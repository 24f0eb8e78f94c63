// src/tb/bigint/BigInt.c:159-285: addition and subtraction of numbers of n words, as the code
// stands and with the carry and borrow that BigInt.h:23-24 calls for (`fixed`).

module WordSums {
  import opened Words

  // ----- Addition -----

  // The carry into word i. The code as it stands compares the wrong way round.
  function CarryInto(a: seq<Word>, b: seq<Word>, i: nat, fixed: bool): (c: int)
    requires i <= |a| == |b|
    ensures c == 0 || c == 1
    decreases i, 0
  {
    if i == 0 then 0
    else
      var r, c := SumWord(a, b, i - 1, fixed), CarryInto(a, b, i - 1, fixed);
      if fixed then (if r < a[i - 1] || (c == 1 && r == a[i - 1]) then 1 else 0)
      else if r > a[i - 1] then 1 else 0
  }

  function SumWord(a: seq<Word>, b: seq<Word>, i: nat, fixed: bool): Word
    requires i < |a| == |b|
    decreases i, 1
  {
    (a[i] + b[i] + CarryInto(a, b, i, fixed)) % W
  }

  function Sum(a: seq<Word>, b: seq<Word>, n: nat, fixed: bool): (s: seq<Word>)
    requires n <= |a| == |b|
    ensures |s| == n && forall i :: 0 <= i < n ==> s[i] == SumWord(a, b, i, fixed)
  {
    if n == 0 then [] else Sum(a, b, n - 1, fixed) + [SumWord(a, b, n - 1, fixed)]
  }

  lemma SumColumn(a: seq<Word>, b: seq<Word>, i: nat)
    requires i < |a| == |b|
    ensures SumWord(a, b, i, true) + W * CarryInto(a, b, i + 1, true) == a[i] + b[i] + CarryInto(a, b, i, true)
  {
  }

  lemma SumMore(a: seq<Word>, b: seq<Word>, n: nat, fixed: bool)
    requires n < |a| == |b|
    ensures Sum(a, b, n + 1, fixed) == Sum(a, b, n, fixed) + [SumWord(a, b, n, fixed)] && Power(n + 1) == W * Power(n)
    ensures Sum(a, b, 0, fixed) == [] && CarryInto(a, b, 0, fixed) == 0
  {
  }

  lemma {:induction false} SumPrefix(a: seq<Word>, b: seq<Word>, n: nat)
    requires n <= |a| == |b|
    ensures Value(Sum(a, b, n, true)) + CarryInto(a, b, n, true) * Power(n) == Value(a[..n]) + Value(b[..n])
  {
    if n == 0 {
      hide Value;
      EmptyValue(a[..0]);
      EmptyValue(b[..0]);
      EmptyValue(Sum(a, b, 0, true));
    } else {
      hide Value, Sum, SumWord, CarryInto, Power, W;
      SumPrefix(a, b, n - 1);
      SumMore(a, b, n - 1, true);
      ValuePush(Sum(a, b, n - 1, true), SumWord(a, b, n - 1, true));
      ValueTake(a, n - 1);
      ValueTake(b, n - 1);
      SumColumn(a, b, n - 1);
      Column(SumWord(a, b, n - 1, true), CarryInto(a, b, n, true), a[n - 1], b[n - 1], CarryInto(a, b, n - 1, true),
             Power(n - 1));
    }
  }

  lemma Column(r: int, c1: int, x: int, y: int, c: int, p: int)
    requires r + W * c1 == x + y + c
    ensures r * p + c1 * (W * p) == x * p + y * p + c * p
  {
    calc {
      r * p + c1 * (W * p);
      r * p + (W * c1) * p;
      (r + W * c1) * p;
      (x + y + c) * p;
    }
  }

  // With the right carry the result is the sum, modulo 2 to the 64n.
  lemma SumValue(a: seq<Word>, b: seq<Word>)
    requires |a| == |b|
    ensures Value(Sum(a, b, |a|, true)) == (Value(a) + Value(b)) % Power(|a|)
  {
    hide Value, Power, Sum, CarryInto;
    SumPrefix(a, b, |a|);
    assert a[..|a|] == a && b[..|b|] == b;
    ModOf(Value(a) + Value(b), Power(|a|), CarryInto(a, b, |a|, true), Value(Sum(a, b, |a|, true)));
  }

  lemma {:induction false} NoCarries(a: seq<Word>, b: seq<Word>, i: nat, fixed: bool)
    requires i <= |a| == |b| && forall j :: 0 <= j < i ==> b[j] == 0
    ensures CarryInto(a, b, i, fixed) == 0
  {
    if i > 0 { NoCarries(a, b, i - 1, fixed); }
  }

  lemma {:induction false} FirstNonzero(b: seq<Word>, n: nat) returns (i: nat)
    requires n <= |b| && exists j :: 0 <= j < n && b[j] != 0
    ensures i < n && b[i] != 0 && forall j :: 0 <= j < i ==> b[j] == 0
  {
    if exists j :: 0 <= j < n - 1 && b[j] != 0 {
      i := FirstNonzero(b, n - 1);
    } else {
      i := n - 1;
    }
  }

  // As it stands the code adds correctly exactly when every word of its second operand but the
  // last is zero.
  lemma LiteralSumExact(a: seq<Word>, b: seq<Word>)
    requires |a| == |b|
    ensures Value(Sum(a, b, |a|, false)) == (Value(a) + Value(b)) % Power(|a|) <==>
              forall i :: 0 <= i < |a| - 1 ==> b[i] == 0
  {
    hide Value, Power, Sum, CarryInto, SumWord;
    SumValue(a, b);
    SumsAgree(a, b);
    if Value(Sum(a, b, |a|, false)) == Value(Sum(a, b, |a|, true)) {
      ValueInjective(Sum(a, b, |a|, false), Sum(a, b, |a|, true));
    }
  }

  lemma SumsAgree(a: seq<Word>, b: seq<Word>)
    requires |a| == |b|
    ensures Sum(a, b, |a|, false) == Sum(a, b, |a|, true) <==> forall i :: 0 <= i < |a| - 1 ==> b[i] == 0
  {
    hide CarryInto, SumWord, Sum;
    var n := |a|;
    if n > 0 && exists j :: 0 <= j < n - 1 && b[j] != 0 {
      var i := FirstNonzero(b, n - 1);
      NoCarries(a, b, i, false);
      NoCarries(a, b, i, true);
      WrongCarry(a, b, i);
      assert Sum(a, b, n, false)[i + 1] != Sum(a, b, n, true)[i + 1];
    } else {
      forall i | 0 <= i < n ensures Sum(a, b, n, false)[i] == Sum(a, b, n, true)[i] {
        NoCarries(a, b, i, false);
        NoCarries(a, b, i, true);
        SameSumWord(a, b, i);
      }
      assert Sum(a, b, n, false) == Sum(a, b, n, true);
    }
  }

  lemma SameSumWord(a: seq<Word>, b: seq<Word>, i: nat)
    requires i < |a| == |b| && CarryInto(a, b, i, false) == CarryInto(a, b, i, true)
    ensures SumWord(a, b, i, false) == SumWord(a, b, i, true)
  {
  }

  lemma WrongCarry(a: seq<Word>, b: seq<Word>, i: nat)
    requires i + 1 < |a| == |b| && b[i] != 0
    requires CarryInto(a, b, i, false) == 0 && CarryInto(a, b, i, true) == 0
    ensures SumWord(a, b, i + 1, false) != SumWord(a, b, i + 1, true)
  {
    assert CarryInto(a, b, i + 1, false) == 1 - CarryInto(a, b, i + 1, true);
  }

  // ----- Subtraction -----

  function BorrowInto(a: seq<Word>, b: seq<Word>, i: nat): (c: int)
    requires i <= |a| == |b|
    ensures c == 0 || c == 1
  {
    if i == 0 then 0 else if a[i - 1] < b[i - 1] + BorrowInto(a, b, i - 1) then 1 else 0
  }

  // The code as it stands leaves out the borrow.
  function DiffWord(a: seq<Word>, b: seq<Word>, i: nat, fixed: bool): Word
    requires i < |a| == |b|
  {
    (a[i] - b[i] - if fixed then BorrowInto(a, b, i) else 0) % W
  }

  function Diff(a: seq<Word>, b: seq<Word>, n: nat, fixed: bool): (s: seq<Word>)
    requires n <= |a| == |b|
    ensures |s| == n && forall i :: 0 <= i < n ==> s[i] == DiffWord(a, b, i, fixed)
  {
    if n == 0 then [] else Diff(a, b, n - 1, fixed) + [DiffWord(a, b, n - 1, fixed)]
  }

  lemma DiffMore(a: seq<Word>, b: seq<Word>, n: nat, fixed: bool)
    requires n < |a| == |b|
    ensures Diff(a, b, n + 1, fixed) == Diff(a, b, n, fixed) + [DiffWord(a, b, n, fixed)]
    ensures Power(n + 1) == W * Power(n)
  {
  }

  lemma {:induction false} DiffPrefix(a: seq<Word>, b: seq<Word>, n: nat)
    requires n <= |a| == |b|
    ensures Value(Diff(a, b, n, true)) - BorrowInto(a, b, n) * Power(n) == Value(a[..n]) - Value(b[..n])
  {
    if n == 0 {
      hide Value;
      EmptyValue(a[..0]);
      EmptyValue(b[..0]);
      EmptyValue(Diff(a, b, 0, true));
    } else {
      hide Value, Diff, DiffWord, BorrowInto, Power, W;
      DiffPrefix(a, b, n - 1);
      DiffMore(a, b, n - 1, true);
      ValuePush(Diff(a, b, n - 1, true), DiffWord(a, b, n - 1, true));
      ValueTake(a, n - 1);
      ValueTake(b, n - 1);
      DiffColumn(a, b, n - 1);
      BackColumn(DiffWord(a, b, n - 1, true), BorrowInto(a, b, n), a[n - 1], b[n - 1], BorrowInto(a, b, n - 1),
                 Power(n - 1));
    }
  }

  lemma DiffColumn(a: seq<Word>, b: seq<Word>, i: nat)
    requires i < |a| == |b|
    ensures DiffWord(a, b, i, true) - W * BorrowInto(a, b, i + 1) == a[i] - b[i] - BorrowInto(a, b, i)
  {
  }

  lemma BackColumn(r: int, c1: int, x: int, y: int, c: int, p: int)
    requires r - W * c1 == x - y - c
    ensures r * p - c1 * (W * p) == x * p - y * p - c * p
  {
    calc {
      r * p - c1 * (W * p);
      r * p - (W * c1) * p;
      (r - W * c1) * p;
      (x - y - c) * p;
    }
  }

  lemma Negate(x: int, p: int)
    ensures (-x) * p == -(x * p)
  {
  }

  lemma DiffValue(a: seq<Word>, b: seq<Word>)
    requires |a| == |b|
    ensures Value(Diff(a, b, |a|, true)) == (Value(a) - Value(b)) % Power(|a|)
  {
    hide Value, Power, Diff, BorrowInto;
    DiffPrefix(a, b, |a|);
    assert a[..|a|] == a && b[..|b|] == b;
    var d, p, c := Value(Diff(a, b, |a|, true)), Power(|a|), BorrowInto(a, b, |a|);
    Negate(c, p);
    ModOf(Value(a) - Value(b), p, -c, d);
  }

  lemma DiffExact(a: seq<Word>, b: seq<Word>)
    requires |a| == |b| && Value(a) >= Value(b)
    ensures Value(Diff(a, b, |a|, true)) == Value(a) - Value(b)
  {
    hide Value, Power, Diff;
    DiffValue(a, b);
    ModOf(Value(a) - Value(b), Power(|a|), 0, Value(a) - Value(b));
  }

  lemma {:induction false} NoBorrows(a: seq<Word>, b: seq<Word>, i: nat)
    requires i <= |a| == |b| && forall j :: 0 <= j < i ==> a[j] >= b[j]
    ensures BorrowInto(a, b, i) == 0
  {
    if i > 0 { NoBorrows(a, b, i - 1); }
  }

  lemma {:induction false} FirstBelow(a: seq<Word>, b: seq<Word>, n: nat) returns (i: nat)
    requires n <= |a| == |b| && exists j :: 0 <= j < n && a[j] < b[j]
    ensures i < n && a[i] < b[i] && forall j :: 0 <= j < i ==> a[j] >= b[j]
  {
    if exists j :: 0 <= j < n - 1 && a[j] < b[j] {
      i := FirstBelow(a, b, n - 1);
    } else {
      i := n - 1;
    }
  }

  // As it stands the code subtracts correctly exactly when no word but the last needs a borrow.
  lemma LiteralDiffExact(a: seq<Word>, b: seq<Word>)
    requires |a| == |b|
    ensures Value(Diff(a, b, |a|, false)) == (Value(a) - Value(b)) % Power(|a|) <==>
              forall i :: 0 <= i < |a| - 1 ==> a[i] >= b[i]
  {
    hide Value, Power, Diff, BorrowInto;
    DiffValue(a, b);
    DiffsAgree(a, b);
    if Value(Diff(a, b, |a|, false)) == Value(Diff(a, b, |a|, true)) {
      ValueInjective(Diff(a, b, |a|, false), Diff(a, b, |a|, true));
    }
  }

  lemma DiffsAgree(a: seq<Word>, b: seq<Word>)
    requires |a| == |b|
    ensures Diff(a, b, |a|, false) == Diff(a, b, |a|, true) <==> forall i :: 0 <= i < |a| - 1 ==> a[i] >= b[i]
  {
    hide BorrowInto, DiffWord, Diff;
    var n := |a|;
    if n > 0 && exists j :: 0 <= j < n - 1 && a[j] < b[j] {
      var i := FirstBelow(a, b, n - 1);
      NoBorrows(a, b, i);
      MissingBorrow(a, b, i);
      assert Diff(a, b, n, false)[i + 1] != Diff(a, b, n, true)[i + 1];
    } else {
      forall i | 0 <= i < n ensures Diff(a, b, n, false)[i] == Diff(a, b, n, true)[i] {
        NoBorrows(a, b, i);
        SameDiffWord(a, b, i);
      }
      assert Diff(a, b, n, false) == Diff(a, b, n, true);
    }
  }

  lemma SameDiffWord(a: seq<Word>, b: seq<Word>, i: nat)
    requires i < |a| == |b| && BorrowInto(a, b, i) == 0
    ensures DiffWord(a, b, i, false) == DiffWord(a, b, i, true)
  {
  }

  lemma MissingBorrow(a: seq<Word>, b: seq<Word>, i: nat)
    requires i + 1 < |a| == |b| && a[i] < b[i] && BorrowInto(a, b, i) == 0
    ensures DiffWord(a, b, i + 1, false) != DiffWord(a, b, i + 1, true)
  {
    assert BorrowInto(a, b, i + 1) == 1;
  }

  // ----- The loops -----

  lemma AddStep(a: seq<Word>, b: seq<Word>, i: nat, fixed: bool, r: Word)
    requires i < |a| == |b| && r == (a[i] + b[i] + CarryInto(a, b, i, fixed)) % W
    ensures r == SumWord(a, b, i, fixed)
    ensures var x, c := a[i], CarryInto(a, b, i, fixed);
            CarryInto(a, b, i + 1, fixed)
            == if fixed then (if r < x || (c == 1 && r == x) then 1 else 0) else if r > x then 1 else 0
  {
  }

  lemma SubStep(a: seq<Word>, b: seq<Word>, i: nat, fixed: bool, r: Word)
    requires i < |a| == |b| && r == (a[i] - b[i] - if fixed then BorrowInto(a, b, i) else 0) % W
    ensures r == DiffWord(a, b, i, fixed)
    ensures BorrowInto(a, b, i + 1) == if a[i] < b[i] + BorrowInto(a, b, i) then 1 else 0
  {
  }

  lemma Start(a: seq<Word>, b: seq<Word>, fixed: bool)
    requires |a| == |b|
    ensures CarryInto(a, b, 0, fixed) == 0 && BorrowInto(a, b, 0) == 0
  {
  }

  // BigInt_add for three numbers of n words. The result may be one of the operands.
  method Add(n: nat, a: array<Word>, b: array<Word>, out: array<Word>, fixed: bool)
    requires n <= a.Length && n <= b.Length && n <= out.Length
    modifies out
    ensures out[..n] == Sum(old(a[..n]), old(b[..n]), n, fixed) && out[n..] == old(out[n..])
  {
    hide CarryInto, SumWord, Sum, W;
    ghost var sa, sb, so := a[..n], b[..n], out[..];
    Start(sa, sb, fixed);
    var carry: int := 0;
    var i: nat := 0;
    while i < n
      invariant i <= n && carry == CarryInto(sa, sb, i, fixed)
      invariant forall k :: i <= k < n ==> a[k] == sa[k] && b[k] == sb[k]
      invariant forall k :: 0 <= k < i ==> out[k] == SumWord(sa, sb, k, fixed)
      invariant forall k :: n <= k < out.Length ==> out[k] == so[k]
    {
      var x: Word := a[i];
      var r: Word := (x + b[i] + carry) % W;
      carry := if fixed then (if r < x || (carry == 1 && r == x) then 1 else 0) else if r > x then 1 else 0;
      AddStep(sa, sb, i, fixed, r);
      out[i] := r;
      i := i + 1;
    }
  }

  // BigInt_sub, likewise.
  method Sub(n: nat, a: array<Word>, b: array<Word>, out: array<Word>, fixed: bool)
    requires n <= a.Length && n <= b.Length && n <= out.Length
    modifies out
    ensures out[..n] == Diff(old(a[..n]), old(b[..n]), n, fixed) && out[n..] == old(out[n..])
  {
    hide BorrowInto, DiffWord, Diff, W;
    ghost var sa, sb, so := a[..n], b[..n], out[..];
    Start(sa, sb, fixed);
    var borrow: int := 0;
    var i: nat := 0;
    while i < n
      invariant i <= n && (fixed ==> borrow == BorrowInto(sa, sb, i))
      invariant forall k :: i <= k < n ==> a[k] == sa[k] && b[k] == sb[k]
      invariant forall k :: 0 <= k < i ==> out[k] == DiffWord(sa, sb, k, fixed)
      invariant forall k :: n <= k < out.Length ==> out[k] == so[k]
    {
      var x, y: Word := a[i], b[i];
      var res: Word := (x - y - if fixed then borrow else 0) % W;
      borrow := if fixed then (if x < y + borrow then 1 else 0) else if res > x then 1 else 0;
      SubStep(sa, sb, i, fixed, res);
      out[i] := res;
      i := i + 1;
    }
  }
}
