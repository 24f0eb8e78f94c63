// Numbers held in arrays of 64-bit words, least significant word first (src/tb/bigint/BigInt.h).

module Words {
  const W: int := 0x1_0000_0000_0000_0000
  const HALF: int := 0x8000_0000_0000_0000

  type Word = x: int | 0 <= x < W

  // W to the n.
  function Power(n: nat): (p: nat)
    ensures p > 0
  {
    if n == 0 then 1 else
      Products(Power(n - 1), W);
      W * Power(n - 1)
  }

  function Value(s: seq<Word>): (v: nat)
    ensures v < Power(|s|)
  {
    if s == [] then 0
    else
      TopWord(Value(s[..|s| - 1]), s[|s| - 1], Power(|s| - 1));
      Value(s[..|s| - 1]) + s[|s| - 1] * Power(|s| - 1)
  }

  lemma Products(a: nat, b: nat)
    ensures a * b >= 0 && b * a == a * b && (a > 0 && b > 0 ==> a * b > 0)
  {
  }

  lemma TopWord(v: nat, x: Word, p: nat)
    requires v < p
    ensures 0 <= v + x * p < W * p
  {
    Mono(x, W - 1, p);
    Mono(0, x, p);
  }

  lemma Mono(a: int, b: int, p: nat)
    requires a <= b
    ensures a * p <= b * p
  {
  }

  lemma EmptyValue(s: seq<Word>)
    requires s == []
    ensures Value(s) == 0
  {
  }

  lemma ValuePush(s: seq<Word>, x: Word)
    ensures Value(s + [x]) == Value(s) + x * Power(|s|)
  {
    assert (s + [x])[..|s|] == s;
  }

  lemma ValueTake(s: seq<Word>, i: nat)
    requires i < |s|
    ensures Value(s[..i + 1]) == Value(s[..i]) + s[i] * Power(i)
  {
    assert s[..i + 1] == s[..i] + [s[i]];
    ValuePush(s[..i], s[i]);
  }

  lemma {:induction false} PowerAdd(a: nat, b: nat)
    ensures Power(a + b) == Power(a) * Power(b)
  {
    if b > 0 {
      PowerAdd(a, b - 1);
      calc {
        Power(a + b);
        W * (Power(a) * Power(b - 1));
        Power(a) * (W * Power(b - 1));
        Power(a) * Power(b);
      }
    }
  }

  // The low k words and the rest.
  lemma {:induction false} ValueSplit(s: seq<Word>, k: nat)
    requires k <= |s|
    ensures Value(s) == Value(s[..k]) + Power(k) * Value(s[k..])
  {
    if k == |s| {
      assert s[..k] == s && s[k..] == [];
    } else {
      var t, x := s[..|s| - 1], s[|s| - 1];
      ValueSplit(t, k);
      assert t[..k] == s[..k];
      assert s[k..] == t[k..] + [x];
      ValuePush(t[k..], x);
      PowerAdd(k, |t| - k);
      Spread(Power(k), Value(t[k..]), x, Power(|t| - k));
    }
  }

  lemma Spread(p: int, a: int, x: int, b: int)
    ensures p * (a + x * b) == p * a + x * (p * b)
  {
  }

  // Words decide: two numbers of the same length are equal only if their words are.
  lemma {:induction false} ValueInjective(s: seq<Word>, t: seq<Word>)
    requires |s| == |t| && Value(s) == Value(t)
    ensures s == t
  {
    if s != [] {
      var n := |s| - 1;
      TopUnique(Value(s[..n]), s[n], Value(t[..n]), t[n], Power(n));
      ValueInjective(s[..n], t[..n]);
      assert s == s[..n] + [s[n]] && t == t[..n] + [t[n]];
    }
  }

  lemma TopUnique(v: nat, x: Word, u: nat, y: Word, p: nat)
    requires v < p && u < p && v + x * p == u + y * p
    ensures v == u && x == y
  {
    TopOrder(v, x, u, y, p);
    TopOrder(u, y, v, x, p);
  }

  // The top word decides an order.
  lemma TopOrder(v: nat, x: Word, u: nat, y: Word, p: nat)
    requires v < p && u < p
    ensures x < y ==> v + x * p < u + y * p
  {
    if x < y {
      Mono(x + 1, y, p);
      assert (x + 1) * p == x * p + p;
    }
  }

  lemma {:induction false} ZeroValue(s: seq<Word>)
    ensures Value(s) == 0 <==> forall i :: 0 <= i < |s| ==> s[i] == 0
  {
    if s != [] {
      ZeroValue(s[..|s| - 1]);
      Products(s[|s| - 1], Power(|s| - 1));
    }
  }

  // ----- Bits -----

  lemma Commute(a: int, b: int)
    ensures a * b == b * a
  {
  }

  function Two(k: nat): (p: nat)
    ensures p > 0
  {
    if k == 0 then 1 else 2 * Two(k - 1)
  }

  lemma {:induction false} TwoAdd(a: nat, b: nat)
    ensures Two(a + b) == Two(a) * Two(b)
  {
    if b > 0 {
      TwoAdd(a, b - 1);
      TwoHalf(a + b);
      TwoHalf(b);
      hide Two;
      Regroup(Two(a), Two(b - 1));
    }
  }

  lemma Regroup(x: int, y: int)
    ensures 2 * (x * y) == x * (2 * y)
  {
  }

  lemma TwoByte()
    ensures Two(8) == 0x100
  {
    assert Two(4) == 16;
    TwoAdd(4, 4);
  }

  lemma TwoHalf(k: nat)
    ensures k > 0 ==> Two(k) == 2 * Two(k - 1)
  {
  }

  lemma TwoWord()
    ensures Two(32) == 0x1_0000_0000 && Two(63) == HALF && Two(64) == W
  {
    hide Two;
    TwoByte();
    TwoAdd(8, 8);
    TwoAdd(16, 16);
    TwoAdd(32, 32);
    TwoHalf(64);
  }

  lemma {:induction false} PowerIsTwo(n: nat)
    ensures Power(n) == Two(64 * n)
  {
    if n > 0 {
      PowerIsTwo(n - 1);
      TwoWord();
      TwoAdd(64 * (n - 1), 64);
    }
  }

  // Bitwise or.
  function Or(x: nat, y: nat): nat
  {
    if x == 0 then y
    else if y == 0 then x
    else 2 * Or(x / 2, y / 2) + if x % 2 == 1 || y % 2 == 1 then 1 else 0
  }

  // Or of numbers without a common bit: x is a multiple of 2^k and y below it.
  lemma {:induction false} OrDisjoint(x: nat, y: nat, k: nat)
    requires x % Two(k) == 0 && y < Two(k)
    ensures Or(x, y) == x + y
  {
    if x > 0 && y > 0 {
      EvenHalf(x, Two(k - 1));
      OrDisjoint(x / 2, y / 2, k - 1);
    }
  }

  lemma EvenHalf(x: nat, p: nat)
    requires p > 0 && x % (2 * p) == 0
    ensures x % 2 == 0 && (x / 2) % p == 0
  {
    var q := x / (2 * p);
    assert x == 2 * p * q;
    assert x == 2 * (p * q);
    MultipleMod(q, p);
  }

  lemma MultipleMod(q: int, p: int)
    requires p > 0
    ensures (p * q) % p == 0 && (q * p) % p == 0 && p * q == q * p
  {
    DivUnique(p * q, p, q, 0);
  }

  // Division with remainder is unique.
  lemma DivUnique(x: int, p: int, q: int, r: int)
    requires p > 0 && 0 <= r < p && x == p * q + r
    ensures x / p == q && x % p == r
  {
    var q1, r1 := x / p, x % p;
    assert x == p * q1 + r1;
    assert p * (q1 - q) == p * q1 - p * q;
    SmallMultiple(q1 - q, p, r - r1);
  }

  lemma ModOf(x: int, p: int, c: int, r: int)
    requires p > 0 && 0 <= r < p && r + c * p == x
    ensures x % p == r
  {
    DivUnique(x, p, c, r);
  }

  lemma SmallMultiple(d: int, p: int, e: int)
    requires -p < e < p && p * d == e
    ensures d == 0
  {
  }

  lemma {:induction false} OrBound(x: nat, y: nat, k: nat)
    requires x < Two(k) && y < Two(k)
    ensures Or(x, y) < Two(k)
  {
    if x > 0 && y > 0 { OrBound(x / 2, y / 2, k - 1); }
  }

  // Or works word by word.
  lemma {:induction false} OrSplit(x: nat, y: nat, u: nat, v: nat, k: nat)
    requires x < Two(k) && u < Two(k)
    ensures Or(x + Two(k) * y, u + Two(k) * v) == Or(x, u) + Two(k) * Or(y, v)
  {
    if k > 0 {
      var p := Two(k - 1);
      HalfSplit(x, y, p);
      HalfSplit(u, v, p);
      OrSplit(x / 2, y, u / 2, v, k - 1);
      OrStep(x + 2 * p * y, u + 2 * p * v);
      OrStep(x, u);
      Doubled(p, y);
      Doubled(p, v);
      Doubled(p, Or(y, v));
    }
  }

  lemma Doubled(p: int, y: int)
    ensures 2 * (p * y) == 2 * p * y == (2 * p) * y
  {
  }

  lemma HalfSplit(x: nat, y: nat, p: nat)
    requires p > 0 && x < 2 * p
    ensures x + 2 * p * y >= 0 && (x + 2 * p * y) / 2 == x / 2 + p * y && (x + 2 * p * y) % 2 == x % 2
  {
    assert x + 2 * p * y == 2 * (x / 2 + p * y) + x % 2;
  }

  lemma OrStep(x: nat, y: nat)
    ensures Or(x, y) == 2 * Or(x / 2, y / 2) + if x % 2 == 1 || y % 2 == 1 then 1 else 0
  {
  }

  // ----- Numbers of fewer bits -----

  function Low(x: int, bits: nat): (r: Word)
    requires bits <= 64
  {
    LowFits(x, bits);
    x % Two(bits)
  }

  lemma LowFits(x: int, bits: nat)
    requires bits <= 64
    ensures 0 <= x % Two(bits) < Two(bits) <= W
  {
    TwoWord();
    TwoMono(bits, 64);
  }

  lemma {:induction false} TwoMono(a: nat, b: nat)
    requires a <= b
    ensures Two(a) <= Two(b)
    decreases b
  {
    if a < b { TwoMono(a, b - 1); }
  }

  // What wraps round is a multiple of 2 to the w.
  lemma LowSplit(y: int, w: nat)
    requires w <= 64
    ensures Low(y, w) == y - (y / Two(w)) * Two(w)
    ensures 0 <= y < Two(w) ==> Low(y, w) == y && y / Two(w) == 0
    ensures Two(w) <= y < 2 * Two(w) ==> Low(y, w) == y - Two(w)
  {
    if Two(w) <= y < 2 * Two(w) { DivUnique(y, Two(w), 1, y - Two(w)); }
    if 0 <= y < Two(w) { DivUnique(y, Two(w), 0, y); }
  }

  lemma LowIs(x: int, z: int, bits: nat)
    requires bits <= 64 && 0 <= z < Two(bits) && (x == z || x == z - Two(bits))
    ensures Low(x, bits) == z
  {
    DivUnique(x, Two(bits), if x == z then 0 else -1, z);
  }
}
