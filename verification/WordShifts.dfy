// src/tb/bigint/BigInt.c:470-600: comparison, bitwise or and shifts of numbers of n words.

module WordShifts {
  import opened Words

  datatype Order = Smaller | Equal | Larger

  // BigInt_cmp. It looks at the last word first, so there must be one.
  method Cmp(n: nat, a: array<Word>, b: array<Word>) returns (r: Order)
    requires 0 < n <= a.Length && n <= b.Length
    ensures r == Smaller <==> Value(a[..n]) < Value(b[..n])
    ensures r == Larger <==> Value(a[..n]) > Value(b[..n])
  {
    ghost var s, t := a[..n], b[..n];
    var i := n;
    while i > 0
      invariant 0 <= i <= n && s[i..] == t[i..]
    {
      i := i - 1;
      if a[i] > b[i] {
        Decides(t, s, i);
        return Larger;
      } else if a[i] < b[i] {
        Decides(s, t, i);
        return Smaller;
      }
      assert s[i..] == [s[i]] + s[i + 1..] && t[i..] == [t[i]] + t[i + 1..];
    }
    assert s[0..] == s && t[0..] == t;
    return Equal;
  }

  // The highest word that differs decides.
  lemma Decides(s: seq<Word>, t: seq<Word>, i: nat)
    requires i < |s| == |t| && s[i] < t[i] && s[i + 1..] == t[i + 1..]
    ensures Value(s) < Value(t)
  {
    ValueSplit(s, i + 1);
    ValueSplit(t, i + 1);
    ValueTake(s, i);
    ValueTake(t, i);
    TopOrder(Value(s[..i]), s[i], Value(t[..i]), t[i], Power(i));
  }

  // BigInt_is_zero
  method IsZero(n: nat, a: array<Word>) returns (r: bool)
    requires n <= a.Length
    ensures r <==> Value(a[..n]) == 0
  {
    ZeroValue(a[..n]);
    var i: nat := 0;
    while i < n
      invariant i <= n && forall j :: 0 <= j < i ==> a[j] == 0
    {
      if a[i] != 0 {
        assert a[..n][i] != 0;
        return false;
      }
      i := i + 1;
    }
    return true;
  }

  // ----- Or -----

  function OrWord(x: Word, y: Word): Word
  {
    TwoWord();
    OrBound(x, y, 64);
    Or(x, y)
  }

  function Ors(a: seq<Word>, b: seq<Word>, n: nat): (s: seq<Word>)
    requires n <= |a| == |b|
    ensures |s| == n && forall i :: 0 <= i < n ==> s[i] == OrWord(a[i], b[i])
  {
    if n == 0 then [] else Ors(a, b, n - 1) + [OrWord(a[n - 1], b[n - 1])]
  }

  lemma {:induction false} OrsValue(a: seq<Word>, b: seq<Word>, n: nat)
    requires n <= |a| == |b|
    ensures Value(Ors(a, b, n)) == Or(Value(a[..n]), Value(b[..n]))
  {
    hide OrWord, Value, Power, Or, Ors;
    if n == 0 {
      EmptyValue(Ors(a, b, 0));
      EmptyValue(a[..0]);
      EmptyValue(b[..0]);
      ZeroOrZero();
    } else {
      OrsValue(a, b, n - 1);
      OrsMore(a, b, n - 1);
      ValuePush(Ors(a, b, n - 1), OrWord(a[n - 1], b[n - 1]));
      ValueTake(a, n - 1);
      ValueTake(b, n - 1);
      OrsStep(Value(a[..n - 1]), Value(b[..n - 1]), a[n - 1], b[n - 1], n - 1);
    }
  }

  lemma OrsMore(a: seq<Word>, b: seq<Word>, n: nat)
    requires n < |a| == |b|
    ensures Ors(a, b, n + 1) == Ors(a, b, n) + [OrWord(a[n], b[n])]
  {
  }

  lemma ZeroOrZero()
    ensures Or(0, 0) == 0
  {
  }

  lemma OrsStep(v: nat, u: nat, x: Word, y: Word, n: nat)
    requires v < Power(n) && u < Power(n)
    ensures Or(v, u) + OrWord(x, y) * Power(n) == Or(v + x * Power(n), u + y * Power(n))
  {
    var p := Power(n);
    PowerIsTwo(n);
    OrSplit(v, x, u, y, 64 * n);
    hide Power, Two, Or;
    Commute(p, x);
    Commute(p, y);
    Commute(p, OrWord(x, y));
  }

  // BigInt_or. The result may be one of the operands.
  method OrInto(n: nat, a: array<Word>, b: array<Word>, out: array<Word>)
    requires n <= a.Length && n <= b.Length && n <= out.Length
    modifies out
    ensures out[..n] == Ors(old(a[..n]), old(b[..n]), n) && out[n..] == old(out[n..])
  {
    ghost var sa, sb, so := a[..n], b[..n], out[..];
    hide OrWord;
    var i: nat := 0;
    while i < n
      invariant i <= n
      invariant forall k :: i <= k < n ==> a[k] == sa[k] && b[k] == sb[k]
      invariant forall k :: 0 <= k < i ==> out[k] == OrWord(sa[k], sb[k])
      invariant forall k :: n <= k < out.Length ==> out[k] == so[k]
    {
      out[i] := OrWord(a[i], b[i]);
      i := i + 1;
    }
  }

  // ----- One bit to the left -----

  function LeftWord(s: seq<Word>, i: nat): Word
    requires i < |s|
  {
    OrWord((2 * s[i]) % W, if i > 0 then s[i - 1] / HALF else 0)
  }

  function Left(s: seq<Word>, n: nat): (t: seq<Word>)
    requires n <= |s|
    ensures |t| == n && forall i :: 0 <= i < n ==> t[i] == LeftWord(s, i)
  {
    if n == 0 then [] else Left(s, n - 1) + [LeftWord(s, n - 1)]
  }

  lemma LeftColumn(s: seq<Word>, i: nat)
    requires i < |s|
    ensures LeftWord(s, i) == 2 * s[i] - W * (s[i] / HALF) + if i > 0 then s[i - 1] / HALF else 0
  {
    OrDisjoint((2 * s[i]) % W, if i > 0 then s[i - 1] / HALF else 0, 1);
  }

  lemma {:induction false} LeftPrefix(s: seq<Word>, n: nat)
    requires n <= |s|
    ensures Value(Left(s, n)) + (if n > 0 then (s[n - 1] / HALF) * Power(n) else 0) == 2 * Value(s[..n])
  {
    hide LeftWord, Value;
    if n == 0 {
      EmptyValue(Left(s, 0));
      EmptyValue(s[..0]);
    } else {
      LeftPrefix(s, n - 1);
      ValuePush(Left(s, n - 1), LeftWord(s, n - 1));
      ValueTake(s, n - 1);
      LeftColumn(s, n - 1);
      var c := if n > 1 then s[n - 2] / HALF else 0;
      LeftSum(LeftWord(s, n - 1), s[n - 1], s[n - 1] / HALF, c, Power(n - 1));
    }
  }

  lemma LeftSum(r: int, x: int, c1: int, c: int, p: int)
    requires r == 2 * x - W * c1 + c
    ensures r * p + c1 * (W * p) == 2 * (x * p) + c * p
  {
    calc {
      r * p + c1 * (W * p);
      r * p + (W * c1) * p;
      (r + W * c1) * p;
      (2 * x + c) * p;
    }
  }

  // The value doubles, modulo 2 to the 64n; exactly if the top bit is clear.
  lemma LeftValue(s: seq<Word>)
    requires |s| > 0
    ensures Value(Left(s, |s|)) == (2 * Value(s)) % Power(|s|)
  {
    hide Value, Left, Power;
    LeftPrefix(s, |s|);
    assert s[..|s|] == s;
    ModOf(2 * Value(s), Power(|s|), s[|s| - 1] / HALF, Value(Left(s, |s|)));
  }

  lemma LeftExact(s: seq<Word>)
    requires |s| > 0 && s[|s| - 1] < HALF
    ensures Value(Left(s, |s|)) == 2 * Value(s)
  {
    hide Value, Left, Power;
    LeftPrefix(s, |s|);
    assert s[..|s|] == s;
    var c := s[|s| - 1] / HALF;
    assert c == 0;
    assert c * Power(|s|) == 0;
  }

  // A number whose top bit is set is at least half of 2 to the 64n.
  lemma TopBit(s: seq<Word>)
    requires |s| > 0 && s[|s| - 1] >= HALF
    ensures 2 * Value(s) >= Power(|s|)
  {
    var p := Power(|s| - 1);
    Mono(HALF, s[|s| - 1], p);
    assert Power(|s|) == W * p;
  }

  // _lshift_one_bit
  method ShiftLeftOne(n: nat, a: array<Word>)
    requires 0 < n <= a.Length
    modifies a
    ensures a[..n] == Left(old(a[..n]), n) && a[n..] == old(a[n..])
  {
    ghost var s, so := a[..n], a[..];
    hide OrWord;
    var i := n - 1;
    while i > 0
      invariant 0 <= i < n
      invariant forall k :: 0 <= k <= i ==> a[k] == s[k]
      invariant forall k :: i < k < n ==> a[k] == LeftWord(s, k)
      invariant forall k :: n <= k < a.Length ==> a[k] == so[k]
    {
      a[i] := OrWord((2 * a[i]) % W, a[i - 1] / HALF);
      i := i - 1;
    }
    OrZero((2 * a[0]) % W);
    a[0] := (2 * a[0]) % W;
  }

  lemma OrZero(x: Word)
    ensures OrWord(x, 0) == x
  {
  }

  // ----- One bit to the right -----

  function RightWord(s: seq<Word>, i: nat): Word
    requires i < |s|
  {
    OrWord(if i < |s| - 1 then (s[i + 1] * HALF) % W else 0, s[i] / 2)
  }

  function Right(s: seq<Word>, n: nat): (t: seq<Word>)
    requires n <= |s|
    ensures |t| == n && forall i :: 0 <= i < n ==> t[i] == RightWord(s, i)
  {
    if n == 0 then [] else Right(s, n - 1) + [RightWord(s, n - 1)]
  }

  // The bit that comes down into word i.
  function BitAbove(s: seq<Word>, i: nat): (b: int)
    requires i < |s|
    ensures b == 0 || b == 1
  {
    if i < |s| - 1 then s[i + 1] % 2 else 0
  }

  lemma RightColumn(s: seq<Word>, i: nat)
    requires i < |s|
    ensures 2 * RightWord(s, i) == s[i] - s[i] % 2 + W * BitAbove(s, i)
  {
    TwoWord();
    var top := if i < |s| - 1 then (s[i + 1] * HALF) % W else 0;
    if i < |s| - 1 { LowBit(s[i + 1]); }
    assert top == HALF * BitAbove(s, i);
    assert top % Two(63) == 0;
    OrDisjoint(top, s[i] / 2, 63);
  }

  lemma LowBit(x: Word)
    ensures (x * HALF) % W == HALF * (x % 2)
  {
    assert x * HALF == W * (x / 2) + HALF * (x % 2);
    DivUnique(x * HALF, W, x / 2, HALF * (x % 2));
  }

  lemma {:induction false} RightPrefix(s: seq<Word>, n: nat)
    requires 0 < n <= |s|
    ensures 2 * Value(Right(s, n)) + s[0] % 2 == Value(s[..n]) + BitAbove(s, n - 1) * Power(n)
  {
    hide RightWord, Value;
    ValuePush(Right(s, n - 1), RightWord(s, n - 1));
    ValueTake(s, n - 1);
    RightColumn(s, n - 1);
    if n == 1 {
      EmptyValue(Right(s, 0));
      EmptyValue(s[..0]);
      assert Power(0) == 1 && Power(1) == W;
    } else {
      RightPrefix(s, n - 1);
      RightSum(RightWord(s, n - 1), s[n - 1], BitAbove(s, n - 1), s[n - 1] % 2, Power(n - 1));
    }
  }

  lemma RightSum(r: int, x: int, c1: int, c: int, p: int)
    requires 2 * r == x - c + W * c1
    ensures 2 * (r * p) + c * p == x * p + c1 * (W * p)
  {
    calc {
      2 * (r * p) + c * p;
      (2 * r) * p + c * p;
      (2 * r + c) * p;
      (x + W * c1) * p;
      x * p + (W * c1) * p;
    }
  }

  // The value is halved.
  lemma RightValue(s: seq<Word>)
    requires |s| > 0
    ensures Value(Right(s, |s|)) == Value(s) / 2
  {
    hide Value, Right, Power;
    RightPrefix(s, |s|);
    assert s[..|s|] == s;
  }

  // _rshift_one_bit
  method ShiftRightOne(n: nat, a: array<Word>)
    requires 0 < n <= a.Length
    modifies a
    ensures a[..n] == Right(old(a[..n]), n) && a[n..] == old(a[n..])
  {
    ghost var s, so := a[..n], a[..];
    hide OrWord;
    var i: nat := 0;
    while i < n - 1
      invariant i <= n - 1
      invariant forall k :: i <= k < n ==> a[k] == s[k]
      invariant forall k :: 0 <= k < i ==> a[k] == RightWord(s, k)
      invariant forall k :: n <= k < a.Length ==> a[k] == so[k]
    {
      a[i] := OrWord((a[i + 1] * HALF) % W, a[i] / 2);
      i := i + 1;
    }
    ZeroOr(a[n - 1] / 2);
    a[n - 1] := a[n - 1] / 2;
  }

  lemma ZeroOr(x: Word)
    ensures OrWord(0, x) == x
  {
  }

  // ----- Whole words to the left -----

  function LeftWords(s: seq<Word>, k: nat): (t: seq<Word>)
    ensures |t| == |s| && forall i :: 0 <= i < |s| ==> t[i] == if i >= k then s[i - k] else 0
  {
    seq(|s|, i requires 0 <= i < |s| => if i >= k then s[i - k] else 0)
  }

  lemma {:induction false} LowZeros(s: seq<Word>, k: nat)
    requires k <= |s| && forall i :: 0 <= i < k ==> s[i] == 0
    ensures Value(s) == Power(k) * Value(s[k..])
  {
    ValueSplit(s, k);
    ZeroValue(s[..k]);
  }

  lemma LeftWordsValue(s: seq<Word>, k: nat)
    ensures Value(LeftWords(s, k)) == (Value(s) * Power(k)) % Power(|s|)
  {
    hide Value, Power;
    var t, n := LeftWords(s, k), |s|;
    if k >= n {
      ZeroValue(t);
      PowerAdd(n, k - n);
      MultipleOf(Value(s), Power(n), Power(k - n));
    } else {
      LowZeros(t, k);
      assert t[k..] == s[..n - k];
      ValueSplit(s, n - k);
      PowerAdd(n - k, k);
      PowerFits(s[..n - k], k, n);
      WordsMod(Value(s[..n - k]), Power(n - k), Value(s[n - k..]), Power(k), Power(n));
    }
  }

  lemma PowerFits(s: seq<Word>, k: nat, n: nat)
    requires |s| + k == n
    ensures 0 <= Power(k) * Value(s) < Power(n)
  {
    hide Power, Value;
    PowerAdd(|s|, k);
    Fits(Value(s), Power(|s|), Power(k));
  }

  lemma Fits(v: nat, p: nat, q: nat)
    requires v < p && q > 0
    ensures 0 <= q * v < p * q
  {
    Mono(v + 1, p, q);
    assert (v + 1) * q == v * q + q;
  }

  lemma MultipleOf(v: int, p: int, q: int)
    requires p > 0
    ensures (v * (p * q)) % p == 0
  {
    assert v * (p * q) == p * (v * q);
    MultipleMod(v * q, p);
  }

  lemma WordsMod(lo: int, p: int, hi: int, q: int, pq: int)
    requires pq == p * q && pq > 0 && 0 <= q * lo < pq
    ensures ((lo + p * hi) * q) % pq == q * lo
  {
    assert (lo + p * hi) * q == q * lo + hi * (p * q);
    ModOf((lo + p * hi) * q, pq, hi, q * lo);
  }

  // _lshift_word
  method ShiftLeftWords(n: nat, a: array<Word>, k: nat)
    requires n <= a.Length
    modifies a
    ensures a[..n] == LeftWords(old(a[..n]), k) && a[n..] == old(a[n..])
  {
    ghost var s, so := a[..n], a[..];
    var i := n - 1;
    while i >= k
      invariant -1 <= i < n
      invariant forall j :: 0 <= j <= i ==> a[j] == s[j]
      invariant forall j :: i < j < n ==> a[j] == if j >= k then s[j - k] else 0
      invariant forall j :: n <= j < a.Length ==> a[j] == so[j]
    {
      a[i] := a[i - k];
      i := i - 1;
    }
    while i >= 0
      invariant -1 <= i < n && i < k
      invariant forall j :: i < j < n ==> a[j] == if j >= k then s[j - k] else 0
      invariant forall j :: n <= j < a.Length ==> a[j] == so[j]
    {
      a[i] := 0;
      i := i - 1;
    }
  }
}
