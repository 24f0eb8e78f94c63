// src/tb/bigint/BigInt.c:286-461: the portable 64 by 64 multiplication, the schoolbook product
// and the shift-and-subtract division of numbers of n words.

module BigInt {
  import opened Words
  import opened WordSums
  import opened WordShifts

  const M: int := 0x1_0000_0000

  // ----- 64 by 64 to 128 bits -----

  lemma Half(x: int, y: int)
    requires 0 <= x < M && 0 <= y < M
    ensures 0 <= x * y <= (M - 1) * (M - 1)
  {
    Mono(x, M - 1, y);
    Mono(y, M - 1, M - 1);
    Mono(0, x, y);
  }

  // The cross products put together.
  lemma CrossProducts(lh: int, ll: int, rh: int, rl: int)
    ensures (lh * M + ll) * (rh * M + rl) == W * (lh * rh) + M * (lh * rl) + M * (ll * rh) + ll * rl
  {
    calc {
      (lh * M + ll) * (rh * M + rl);
      (lh * M) * (rh * M + rl) + ll * (rh * M + rl);
      (lh * M) * (rh * M) + (lh * M) * rl + ll * (rh * M) + ll * rl;
    }
    assert (lh * M) * (rh * M) == W * (lh * rh);
  }

  // The products of the halves are put together without leaving a word.
  lemma Portable(loLo: int, hiLo: int, loHi: int, hiHi: int)
    requires 0 <= loLo <= (M - 1) * (M - 1) && 0 <= hiLo <= (M - 1) * (M - 1)
    requires 0 <= loHi <= (M - 1) * (M - 1) && 0 <= hiHi <= (M - 1) * (M - 1)
    ensures 0 <= loLo / M + hiLo % M + loHi < W
    ensures 0 <= hiLo / M + (loLo / M + hiLo % M + loHi) / M + hiHi < W
    ensures ((loLo / M + hiLo % M + loHi) % M) * M + loLo % M +
              W * (hiLo / M + (loLo / M + hiLo % M + loHi) / M + hiHi) ==
            W * hiHi + M * hiLo + M * loHi + loLo
  {
  }

  // cross << 32 | low, within a word.
  lemma Shifted(cross: Word, low: int)
    requires 0 <= low < M
    ensures Or((cross * M) % W, low) == (cross % M) * M + low < W
  {
    TwoWord();
    assert cross * M == W * (cross / M) + (cross % M) * M;
    DivUnique(cross * M, W, cross / M, (cross % M) * M);
    MultipleMod(cross % M, M);
    OrDisjoint((cross * M) % W, low, 32);
  }

  // BigInt__mul64x128 without 128-bit types. The types of the locals say that no sum or product
  // on the way overflows a word.
  method Mul64x128(lhs: Word, rhs: Word) returns (lo: Word, high: Word)
    ensures lo + W * high == lhs * rhs
  {
    var lh, ll, rh, rl := lhs / M, lhs % M, rhs / M, rhs % M;
    hide Or;
    Half(ll, rl);
    Half(lh, rl);
    Half(ll, rh);
    Half(lh, rh);
    CrossProducts(lh, ll, rh, rl);
    Portable(ll * rl, lh * rl, ll * rh, lh * rh);
    var loLo: Word := ll * rl;
    var hiLo: Word := lh * rl;
    var loHi: Word := ll * rh;
    var hiHi: Word := lh * rh;
    var cross: Word := loLo / M + hiLo % M + loHi;
    var upper: Word := hiLo / M + cross / M + hiHi;
    Shifted(cross, loLo % M);
    high := upper;
    lo := Or((cross * M) % W, loLo % M);
  }

  // ----- Congruence -----

  ghost predicate Cong(x: int, y: int, m: nat)
    requires m > 0
  {
    exists k: int :: x == y + k * m
  }

  lemma CongMod(x: int, m: nat)
    requires m > 0
    ensures Cong(x % m, x, m)
  {
    var k := x / m;
    assert x == m * k + x % m;
    Negate(k, m);
    assert x % m == x + (-k) * m;
  }

  lemma ModCong(x: int, y: int, m: nat)
    requires m > 0 && Cong(x, y, m) && 0 <= x < m
    ensures x == y % m
  {
    var k: int :| x == y + k * m;
    Negate(k, m);
    ModOf(y, m, -k, x);
  }

  lemma CongTrans(x: int, y: int, z: int, m: nat)
    requires m > 0 && Cong(x, y, m) && Cong(y, z, m)
    ensures Cong(x, z, m)
  {
    var k: int :| x == y + k * m;
    var l: int :| y == z + l * m;
    assert x == z + (k + l) * m;
  }

  lemma CongAdd(x: int, y: int, u: int, v: int, m: nat)
    requires m > 0 && Cong(x, y, m) && Cong(u, v, m)
    ensures Cong(x + u, y + v, m)
  {
    var k: int :| x == y + k * m;
    var l: int :| u == v + l * m;
    assert x + u == y + v + (k + l) * m;
  }

  lemma CongMul(x: int, y: int, c: int, m: nat)
    requires m > 0 && Cong(x, y, m)
    ensures Cong(x * c, y * c, m)
  {
    var k: int :| x == y + k * m;
    calc {
      x * c;
      (y + k * m) * c;
      y * c + (k * m) * c;
      y * c + (k * c) * m;
    }
  }

  lemma CongMultiple(x: int, y: int, c: int, m: nat)
    requires m > 0 && y == x + c * m
    ensures Cong(x, y, m) && Cong(y, x, m)
  {
    Negate(c, m);
    assert x == y + (-c) * m;
  }

  lemma CongSame(x: int, m: nat)
    requires m > 0
    ensures Cong(x, x, m)
  {
    assert x == x + 0 * m;
  }

  // ----- Schoolbook product -----

  method Zero(n: nat, a: array<Word>)
    requires n <= a.Length
    modifies a
    ensures (forall i :: 0 <= i < n ==> a[i] == 0) && a[n..] == old(a[n..])
    ensures Value(a[..n]) == 0
  {
    var i: nat := 0;
    ghost var so := a[..];
    while i < n
      invariant i <= n
      invariant forall k :: 0 <= k < i ==> a[k] == 0
      invariant forall k :: n <= k < a.Length ==> a[k] == so[k]
    {
      a[i] := 0;
      i := i + 1;
    }
    ZeroValue(a[..n]);
  }

  function Zeros(n: nat): (s: seq<Word>)
    ensures |s| == n && forall i :: 0 <= i < n ==> s[i] == 0
  {
    seq(n, _ => 0)
  }

  // A product of two words as a number of n words; of one word only the low half is kept.
  function Pair(n: nat, lo: Word, hi: Word): (s: seq<Word>)
    ensures |s| == n && forall i :: 0 <= i < n ==> s[i] == if i == 0 then lo else if i == 1 then hi else 0
  {
    seq(n, i requires 0 <= i < n => if i == 0 then lo else if i == 1 then hi else 0)
  }

  method FromProduct(n: nat, tmp: array<Word>, lo: Word, hi: Word)
    requires 0 < n <= tmp.Length && 2 <= tmp.Length
    modifies tmp
    ensures tmp[..n] == Pair(n, lo, hi)
  {
    Zero(n, tmp);
    tmp[0] := lo;
    tmp[1] := hi;
  }

  lemma TwoWords(s: seq<Word>, lo: Word, hi: Word)
    requires |s| > 0 && s[0] == lo && (|s| > 1 ==> s[1] == hi) && forall i :: 2 <= i < |s| ==> s[i] == 0
    ensures Cong(Value(s), lo + W * hi, Power(|s|))
  {
    if |s| == 1 {
      assert s == [lo];
      OneWord(lo);
      CongMultiple(lo, lo + W * hi, hi, W);
    } else {
      TwoWordValue(s, lo, hi);
      CongSame(lo + W * hi, Power(|s|));
    }
  }

  lemma OneWord(x: Word)
    ensures Value([x]) == x && Power(1) == W
  {
    assert [] + [x] == [x];
    ValuePush([], x);
    assert Power(0) == 1;
  }

  lemma TwoWordValue(s: seq<Word>, lo: Word, hi: Word)
    requires |s| > 1 && s[0] == lo && s[1] == hi && forall i :: 2 <= i < |s| ==> s[i] == 0
    ensures Value(s) == lo + W * hi
  {
    hide Value, Power;
    HighZeros(s, 2);
    ValueTake(s, 1);
    assert s[..1] == [lo];
    OneWord(lo);
  }

  lemma HighZeros(s: seq<Word>, k: nat)
    requires k <= |s| && forall i :: k <= i < |s| ==> s[i] == 0
    ensures Value(s) == Value(s[..k])
  {
    hide Value, Power;
    ValueSplit(s, k);
    ZeroValue(s[k..]);
    Commute(Power(k), 0);
  }

  // What a row comes to after j words of b.
  ghost function RowValue(x: Word, i: nat, b: seq<Word>, j: nat): int
    requires j <= |b|
  {
    x * Power(i) * Value(b[..j])
  }

  lemma RowStep(x: Word, i: nat, b: seq<Word>, j: nat)
    requires j < |b|
    ensures RowValue(x, i, b, j + 1) == RowValue(x, i, b, j) + (x * b[j]) * Power(i + j)
  {
    ValueTake(b, j);
    PowerAdd(i, j);
    RowAlgebra(x, Power(i), Value(b[..j]), b[j], Power(j));
  }

  lemma RowAlgebra(x: int, p: int, v: int, y: int, q: int)
    ensures x * p * (v + y * q) == x * p * v + (x * y) * (p * q)
  {
    calc {
      x * p * (v + y * q);
      x * p * v + (x * p) * (y * q);
      x * p * v + (x * y) * (p * q);
    }
  }

  lemma RowStart(x: Word, i: nat, s: seq<Word>)
    ensures RowValue(x, i, s, 0) == 0
  {
    assert Value(s[..0]) == 0;
  }

  lemma RowEnd(x: Word, i: nat, s: seq<Word>)
    ensures RowValue(x, i, s, |s|) == (x * Power(i)) * Value(s)
  {
    assert s[..|s|] == s;
  }

  // The part of a row that falls outside the n words.
  lemma RowBeyond(x: Word, i: nat, b: seq<Word>, j: nat, n: nat)
    requires j < |b| && i + j >= n
    ensures Cong(RowValue(x, i, b, j), RowValue(x, i, b, j + 1), Power(n))
  {
    hide RowValue, Power;
    RowStep(x, i, b, j);
    PowerAdd(n, i + j - n);
    var p, c := Power(n), x * b[j];
    assert c * (p * Power(i + j - n)) == (c * Power(i + j - n)) * p;
    CongMultiple(RowValue(x, i, b, j), RowValue(x, i, b, j + 1), c * Power(i + j - n), p);
  }

  // x * y shifted up k of n words.
  function ProductAt(n: nat, x: Word, y: Word, k: nat): (s: seq<Word>)
    ensures |s| == n
  {
    WordProduct(x, y);
    LeftWords(Pair(n, (x * y) % W, (x * y) / W), k)
  }

  lemma WordProduct(x: Word, y: Word)
    ensures 0 <= (x * y) / W < W
  {
    Mono(x, W - 1, y);
    Mono(0, x, y);
    Mono(y, W - 1, W);
    Mono(x * y / W, W - 1, W);
  }

  // The row for word i after j words of b.
  function RowOf(x: Word, i: nat, b: seq<Word>, j: nat, fixed: bool): (r: seq<Word>)
    requires j <= |b|
    ensures |r| == |b|
  {
    if j == 0 then Zeros(|b|)
    else
      var r := RowOf(x, i, b, j - 1, fixed);
      if i + j - 1 < |b| then Sum(ProductAt(|b|, x, b[j - 1], i + j - 1), r, |b|, fixed) else r
  }

  // The product after i rows, with the carry as written or as intended in every addition.
  function ProductOf(a: seq<Word>, b: seq<Word>, i: nat, fixed: bool): (p: seq<Word>)
    requires i <= |a| == |b|
    ensures |p| == |b|
  {
    if i == 0 then Zeros(|b|)
    else Sum(ProductOf(a, b, i - 1, fixed), RowOf(a[i - 1], i - 1, b, |b|, fixed), |b|, fixed)
  }

  // One column of a row.
  method AddProduct(n: nat, x: Word, y: Word, k: nat, row: array<Word>, tmp: array<Word>, fixed: bool)
    requires 0 < n <= row.Length && n <= tmp.Length && 2 <= tmp.Length && row != tmp
    modifies row, tmp
    ensures row[..n] == Sum(ProductAt(n, x, y, k), old(row[..n]), n, fixed)
  {
    hide Sum, LeftWords, Pair;
    ghost var r := row[..n];
    var lo, hi := Mul64x128(x, y);
    DivUnique(x * y, W, hi, lo);
    FromProduct(n, tmp, lo, hi);
    ShiftLeftWords(n, tmp, k);
    Add(n, tmp, row, row, fixed);
  }

  method MulRow(n: nat, x: Word, i: nat, b: array<Word>, row: array<Word>, tmp: array<Word>, fixed: bool)
    requires 0 < n <= b.Length && n <= row.Length && n <= tmp.Length && 2 <= tmp.Length
    requires row != tmp && b != row && b != tmp
    modifies row, tmp
    ensures row[..n] == RowOf(x, i, b[..n], n, fixed)
  {
    hide Sum, ProductAt;
    ghost var s := b[..n];
    Zero(n, row);
    var j: nat := 0;
    while j < n
      invariant j <= n && b[..n] == s && row[..n] == RowOf(x, i, s, j, fixed)
    {
      if i + j < n { AddProduct(n, x, b[j], i + j, row, tmp, fixed); }
      j := j + 1;
    }
  }

  // BigInt_mul_basic
  method MulBasic(n: nat, a: array<Word>, b: array<Word>, out: array<Word>, fixed: bool)
    requires 0 < n <= a.Length && n <= b.Length && n <= out.Length && out != a && out != b
    modifies out
    ensures out[..n] == ProductOf(a[..n], b[..n], n, fixed)
    ensures fixed || n == 1 ==> Value(out[..n]) == (Value(a[..n]) * Value(b[..n])) % Power(n)
  {
    hide Sum, RowOf, Value, Power;
    ghost var sa, sb := a[..n], b[..n];
    var row := new Word[n];
    var tmp := new Word[n + 1];
    Zero(n, out);
    var i: nat := 0;
    while i < n
      invariant i <= n && a[..n] == sa && b[..n] == sb && out[..n] == ProductOf(sa, sb, i, fixed)
    {
      Zero(n, row);
      MulRow(n, a[i], i, b, row, tmp, fixed);
      Add(n, out, row, out, fixed);
      i := i + 1;
    }
    if fixed || n == 1 { ProductExact(sa, sb, fixed); }
  }

  // ----- What the product is -----

  // Of one word the sum as written is right too.
  lemma SumMeant(a: seq<Word>, b: seq<Word>, fixed: bool)
    requires |a| == |b| && (fixed || |a| == 1)
    ensures Cong(Value(Sum(a, b, |a|, fixed)), Value(a) + Value(b), Power(|a|))
  {
    hide Value, Power, Sum, Cong;
    SumsAgree(a, b);
    SumValue(a, b);
    CongMod(Value(a) + Value(b), Power(|a|));
  }

  lemma ProductAtMeant(n: nat, x: Word, y: Word, k: nat)
    requires n > 0
    ensures Cong(Value(ProductAt(n, x, y, k)), (x * y) * Power(k), Power(n))
  {
    hide Value, Power, LeftWords, Cong, Pair;
    var xy: int := x * y;
    WordProduct(x, y);
    PairMeant(n, x, y);
    var t, m := Pair(n, xy % W, xy / W), Power(n);
    LeftWordsValue(t, k);
    CongMod(Value(t) * Power(k), m);
    CongMul(Value(t), xy, Power(k), m);
    CongTrans(Value(LeftWords(t, k)), Value(t) * Power(k), xy * Power(k), m);
  }

  lemma PairMeant(n: nat, x: Word, y: Word)
    requires n > 0
    ensures 0 <= (x * y) / W < W && Cong(Value(Pair(n, (x * y) % W, (x * y) / W)), x * y, Power(n))
  {
    hide Value, Power, Cong;
    WordProduct(x, y);
    var xy: int := x * y;
    assert xy % W + W * (xy / W) == xy;
    TwoWords(Pair(n, xy % W, xy / W), xy % W, xy / W);
  }

  lemma {:induction false} RowMeant(x: Word, i: nat, b: seq<Word>, j: nat, fixed: bool)
    requires 0 < |b| && j <= |b| && (fixed || |b| == 1)
    ensures Cong(Value(RowOf(x, i, b, j, fixed)), RowValue(x, i, b, j), Power(|b|))
  {
    hide Value, Power, Cong, RowValue, Sum, ProductAt;
    var n, m := |b|, Power(|b|);
    if j == 0 {
      ZeroValue(Zeros(n));
      RowStart(x, i, b);
      CongSame(0, m);
    } else {
      RowMeant(x, i, b, j - 1, fixed);
      var r, v := RowOf(x, i, b, j - 1, fixed), RowValue(x, i, b, j - 1);
      if i + j - 1 < n {
        RowColumn(x, i, b, j - 1, r, fixed);
      } else {
        RowBeyond(x, i, b, j - 1, n);
        CongTrans(Value(r), v, RowValue(x, i, b, j), m);
      }
    }
  }

  lemma RowColumn(x: Word, i: nat, b: seq<Word>, j: nat, r: seq<Word>, fixed: bool)
    requires j < |b| == |r| && (fixed || |b| == 1) && Cong(Value(r), RowValue(x, i, b, j), Power(|b|))
    ensures Cong(Value(Sum(ProductAt(|b|, x, b[j], i + j), r, |b|, fixed)), RowValue(x, i, b, j + 1), Power(|b|))
  {
    hide Value, Power, Cong, RowValue, Sum, ProductAt;
    var m, v, t, c := Power(|b|), RowValue(x, i, b, j), ProductAt(|b|, x, b[j], i + j), (x * b[j]) * Power(i + j);
    ProductAtMeant(|b|, x, b[j], i + j);
    SumMeant(t, r, fixed);
    CongAdd(Value(t), c, Value(r), v, m);
    RowStep(x, i, b, j);
    CongTrans(Value(Sum(t, r, |b|, fixed)), Value(t) + Value(r), c + v, m);
  }

  lemma {:induction false} ProductMeant(a: seq<Word>, b: seq<Word>, i: nat, fixed: bool)
    requires i <= |a| == |b| && 0 < |b| && (fixed || |b| == 1)
    ensures Cong(Value(ProductOf(a, b, i, fixed)), Value(a[..i]) * Value(b), Power(|b|))
  {
    hide Value, Power, Cong, Sum, RowOf;
    var n, m, v := |b|, Power(|b|), Value(b);
    if i == 0 {
      EmptyProduct(a, v, m);
      ZeroValue(Zeros(n));
    } else {
      ProductMeant(a, b, i - 1, fixed);
      var o, r := ProductOf(a, b, i - 1, fixed), RowOf(a[i - 1], i - 1, b, n, fixed);
      RowMeant(a[i - 1], i - 1, b, n, fixed);
      RowEnd(a[i - 1], i - 1, b);
      SumMeant(o, r, fixed);
      CongAdd(Value(o), Value(a[..i - 1]) * v, Value(r), (a[i - 1] * Power(i - 1)) * v, m);
      ProductStep(a, i - 1, v);
      CongTrans(Value(Sum(o, r, n, fixed)), Value(o) + Value(r), Value(a[..i]) * v, m);
    }
  }

  // With the intended carry, or with one word, the product modulo 2 to the 64n.
  lemma ProductExact(a: seq<Word>, b: seq<Word>, fixed: bool)
    requires 0 < |a| == |b| && (fixed || |b| == 1)
    ensures Value(ProductOf(a, b, |a|, fixed)) == (Value(a) * Value(b)) % Power(|a|)
  {
    hide Value, Power, Cong, ProductOf;
    ProductMeant(a, b, |a|, fixed);
    assert a[..|a|] == a;
    ModCong(Value(ProductOf(a, b, |a|, fixed)), Value(a) * Value(b), Power(|a|));
  }

  lemma EmptyProduct(s: seq<Word>, v: nat, m: nat)
    requires m > 0
    ensures Cong(0, Value(s[..0]) * v, m)
  {
    CongSame(0, m);
  }

  lemma ProductStep(s: seq<Word>, i: nat, v: nat)
    requires i < |s|
    ensures Value(s[..i + 1]) * v == Value(s[..i]) * v + (s[i] * Power(i)) * v
  {
    ValueTake(s, i);
  }

  // ----- Division -----

  method Copy(n: nat, dst: array<Word>, src: array<Word>)
    requires n <= dst.Length && n <= src.Length
    modifies dst
    ensures dst[..n] == old(src[..n]) && dst[n..] == old(dst[n..])
  {
    var i: nat := 0;
    ghost var so, ss := dst[..], src[..n];
    while i < n
      invariant i <= n
      invariant forall k :: 0 <= k < i ==> dst[k] == ss[k]
      invariant forall k :: i <= k < n ==> src[k] == ss[k]
      invariant forall k :: n <= k < dst.Length ==> dst[k] == so[k]
    {
      dst[i] := src[i];
      i := i + 1;
    }
  }

  method FromOne(n: nat, a: array<Word>)
    requires 0 < n <= a.Length
    modifies a
    ensures a[..n] == Pair(n, 1, 0)
  {
    Zero(n, a);
    a[0] := 1;
  }

  lemma OneValue(n: nat)
    requires n > 0
    ensures Value(Pair(n, 1, 0)) == 1
  {
    if n == 1 {
      assert Pair(n, 1, 0) == [1];
      OneWord(1);
    } else {
      TwoWordValue(Pair(n, 1, 0), 1, 0);
    }
  }

  // The first loop of BigInt_div: current and denom after it.
  function AlignOf(a: seq<Word>, c: seq<Word>, d: seq<Word>): (r: (seq<Word>, seq<Word>))
    requires 0 < |a| == |c| == |d| && Value(d) > 0
    ensures |r.0| == |r.1| == |a|
    decreases Power(|d|) - Value(d)
  {
    if Value(d) > Value(a) then (Right(c, |c|), Right(d, |d|))
    else if d[|d| - 1] >= HALF then (c, d)
    else
      LeftExact(d);
      AlignOf(a, Left(c, |c|), Left(d, |d|))
  }

  // The second loop: the quotient it ends with.
  function PeelOf(c: seq<Word>, d: seq<Word>, t: seq<Word>, o: seq<Word>, fixed: bool): (q: seq<Word>)
    requires 0 < |c| == |d| == |t| == |o|
    ensures |q| == |c|
    decreases Value(c)
  {
    if Value(c) == 0 then o
    else
      RightValue(c);
      var n := |c|;
      if Value(t) >= Value(d) then PeelOf(Right(c, n), Right(d, n), Diff(t, d, n, fixed), Ors(o, c, n), fixed)
      else PeelOf(Right(c, n), Right(d, n), t, o, fixed)
  }

  function DivOf(a: seq<Word>, b: seq<Word>, fixed: bool): (q: seq<Word>)
    requires 0 < |a| == |b| && Value(b) > 0
    ensures |q| == |a|
  {
    var (c, d) := AlignOf(a, Pair(|a|, 1, 0), b);
    PeelOf(c, d, a, Zeros(|a|), fixed)
  }

  // current is 2^k and denom is b times that.
  ghost predicate Scaled(c: int, d: int, b: nat, k: nat)
  {
    c == Two(k) && d == b * Two(k)
  }

  lemma ScaledUp(c: int, d: int, b: nat, k: nat)
    requires Scaled(c, d, b, k)
    ensures Scaled(2 * c, 2 * d, b, k + 1)
  {
    assert b * (2 * Two(k)) == 2 * (b * Two(k));
  }

  lemma ScaledDown(c: int, d: int, b: nat, k: nat)
    requires Scaled(c, d, b, k) && k > 0
    ensures Scaled(c / 2, d / 2, b, k - 1) && d == 2 * (d / 2)
  {
    assert b * (2 * Two(k - 1)) == 2 * (b * Two(k - 1));
  }

  lemma ScaledStart(b: nat)
    ensures Scaled(1, b, b, 0)
  {
    assert Two(0) == 1;
  }

  lemma ScaledBounds(c: int, d: int, b: nat, k: nat)
    requires Scaled(c, d, b, k) && b > 0
    ensures 0 < c <= d
  {
    Mono(1, b, Two(k));
  }

  // What the first loop leaves: either the divisor is larger than the dividend and current is
  // zero, or denom is the largest shift of the divisor that is needed.
  ghost predicate Aligned(c: int, d: int, a: nat, b: nat, k: nat)
  {
    if c == 0 then a < b else Scaled(c, d, b, k) && a < 2 * d
  }

  lemma {:induction false} AlignMeant(a: seq<Word>, c: seq<Word>, d: seq<Word>, b: nat, k: nat) returns (k1: nat)
    requires 0 < |a| == |c| == |d| && b > 0 && Scaled(Value(c), Value(d), b, k) && Value(d) > 0
    ensures Aligned(Value(AlignOf(a, c, d).0), Value(AlignOf(a, c, d).1), Value(a), b, k1)
    decreases Power(|d|) - Value(d)
  {
    var n := |a|;
    ScaledNonzero(Value(c), Value(d), b, k);
    ScaledBounds(Value(c), Value(d), b, k);
    if Value(d) > Value(a) {
      hide Value, Power, Left, Right, Scaled;
      RightValue(c);
      RightValue(d);
      BackOne(Value(c), Value(d), Value(a), b, k);
      k1 := if k > 0 then k - 1 else 0;
    } else if d[n - 1] >= HALF {
      hide Value, Power, Left, Right, Scaled;
      TopBit(d);
      k1 := k;
    } else {
      hide Value, Power, Left, Right, Scaled;
      LeftExact(d);
      LeftValue(c);
      DoubleFits(Value(c), Value(Left(d, n)), Power(n));
      ScaledUp(Value(c), Value(d), b, k);
      k1 := AlignMeant(a, Left(c, n), Left(d, n), b, k + 1);
    }
  }

  // With a zero divisor the first loop would never end.
  method Align(n: nat, a: array<Word>, current: array<Word>, denom: array<Word>)
    requires 0 < n <= a.Length && n <= current.Length && n <= denom.Length
    requires current != denom && current != a && denom != a && Value(denom[..n]) > 0
    modifies current, denom
    ensures (current[..n], denom[..n]) == AlignOf(a[..n], old(current[..n]), old(denom[..n]))
  {
    hide Value, Power, Left, Right;
    ghost var sa, to := a[..n], AlignOf(a[..n], current[..n], denom[..n]);
    var overflow := false;
    var order := Cmp(n, denom, a);
    while order != Larger
      invariant sa == a[..n] && Value(denom[..n]) > 0 && to == AlignOf(sa, current[..n], denom[..n])
      invariant order == Larger <==> Value(denom[..n]) > Value(sa)
      decreases Power(n) - Value(denom[..n])
    {
      if denom[n - 1] >= HALF {
        overflow := true;
        break;
      }
      LeftExact(denom[..n]);
      ShiftLeftOne(n, current);
      ShiftLeftOne(n, denom);
      order := Cmp(n, denom, a);
    }
    if !overflow {
      ShiftRightOne(n, denom);
      ShiftRightOne(n, current);
    }
  }

  lemma ScaledNonzero(c: int, d: int, b: nat, k: nat)
    ensures Scaled(c, d, b, k) ==> c > 0
  {
  }

  lemma DoubleFits(c: nat, d: int, p: nat)
    requires 2 * c <= d < p
    ensures (2 * c) % p == 2 * c
  {
    ModOf(2 * c, p, 0, 2 * c);
  }

  lemma BackOne(c: int, d: int, a: nat, b: nat, k: nat)
    requires Scaled(c, d, b, k) && d > a && b > 0
    ensures Aligned(c / 2, d / 2, a, b, if k > 0 then k - 1 else 0)
  {
    if k > 0 {
      ScaledDown(c, d, b, k);
    } else {
      assert Two(0) == 1;
    }
  }

  ghost predicate Divided(a: nat, q: nat, b: nat, rem: nat)
  {
    a == q * b + rem
  }

  // The state of the second loop.
  ghost predicate Dividing(c: int, d: int, rem: nat, q: nat, a: nat, b: nat, k: nat)
  {
    && Divided(a, q, b, rem)
    && if c == 0 then rem < b else Scaled(c, d, b, k) && rem < 2 * d && q % Two(k + 1) == 0
  }

  lemma Subtracted(c: int, d: int, rem: nat, q: nat, a: nat, b: nat, k: nat)
    requires c != 0 && Dividing(c, d, rem, q, a, b, k) && rem >= d
    ensures Or(q, c) == q + c && Divided(a, q + c, b, rem - d) && rem - d < d
  {
    hide Or, Two;
    TwoHalf(k + 1);
    OrDisjoint(q, c, k + 1);
    Distribute(q, c, b);
    Commute(c, b);
  }

  lemma Distribute(q: int, c: int, b: int)
    ensures (q + c) * b == q * b + c * b
  {
  }

  // After the step for 2^k comes the one for 2^(k-1).
  lemma NextBit(c: int, d: int, rem: nat, q0: nat, q: nat, a: nat, b: nat, k: nat)
    requires c != 0 && Scaled(c, d, b, k) && rem < d && Divided(a, q, b, rem)
    requires q0 % Two(k + 1) == 0 && (q == q0 || q == q0 + c)
    ensures Dividing(c / 2, d / 2, rem, q, a, b, if k > 0 then k - 1 else 0)
  {
    HigherMultiple(q0, Two(k));
    if k > 0 {
      ScaledDown(c, d, b, k);
    } else {
      assert Two(0) == 1;
    }
  }

  lemma HigherMultiple(q: nat, p: nat)
    requires p > 0 && q % (2 * p) == 0
    ensures q % p == 0 && (q + p) % p == 0
  {
    var t := q / (2 * p);
    assert q == (2 * p) * t == p * (2 * t);
    MultipleMod(2 * t, p);
    assert q + p == p * (2 * t + 1);
    MultipleMod(2 * t + 1, p);
  }

  lemma PeelStarts(c: int, d: int, a: nat, b: nat, k: nat)
    requires Aligned(c, d, a, b, k)
    ensures Dividing(c, d, a, 0, a, b, k)
  {
  }

  lemma PeelEnds(d: int, rem: nat, q: nat, a: nat, b: nat, k: nat)
    requires Dividing(0, d, rem, q, a, b, k)
    ensures a == q * b + rem && rem < b
  {
  }

  lemma DividingIsDivided(c: int, d: int, rem: nat, q: nat, a: nat, b: nat, k: nat)
    requires Dividing(c, d, rem, q, a, b, k)
    ensures Divided(a, q, b, rem)
    ensures c != 0 ==> Scaled(c, d, b, k) && q % Two(k + 1) == 0
  {
  }

  lemma DiffMeant(a: seq<Word>, b: seq<Word>, fixed: bool)
    requires |a| == |b| && (fixed || |a| == 1) && Value(a) >= Value(b)
    ensures Value(Diff(a, b, |a|, fixed)) == Value(a) - Value(b)
  {
    DiffsAgree(a, b);
    DiffExact(a, b);
  }

  lemma OrsMeant(o: seq<Word>, c: seq<Word>)
    requires |o| == |c|
    ensures Value(Ors(o, c, |o|)) == Or(Value(o), Value(c))
  {
    OrsValue(o, c, |o|);
    assert o[..|o|] == o && c[..|c|] == c;
  }

  lemma {:induction false} PeelMeant(c: seq<Word>, d: seq<Word>, t: seq<Word>, o: seq<Word>, fixed: bool,
                                     a: nat, b: nat, k: nat) returns (rem: nat)
    requires 0 < |c| == |d| == |t| == |o| && (fixed || |c| == 1)
    requires Dividing(Value(c), Value(d), Value(t), Value(o), a, b, k)
    ensures a == Value(PeelOf(c, d, t, o, fixed)) * b + rem && rem < b
    decreases Value(c)
  {
    hide Value, Power, Right, Scaled, Dividing, Divided, Ors, Diff, Or;
    var n := |c|;
    DividingIsDivided(Value(c), Value(d), Value(t), Value(o), a, b, k);
    if Value(c) == 0 {
      PeelEnds(Value(d), Value(t), Value(o), a, b, k);
      rem := Value(t);
    } else {
      RightValue(c);
      RightValue(d);
      var t1, o1 := t, o;
      if Value(t) >= Value(d) {
        Subtracted(Value(c), Value(d), Value(t), Value(o), a, b, k);
        DiffMeant(t, d, fixed);
        OrsMeant(o, c);
        t1, o1 := Diff(t, d, n, fixed), Ors(o, c, n);
      }
      NextBit(Value(c), Value(d), Value(t1), Value(o), Value(o1), a, b, k);
      rem := PeelMeant(Right(c, n), Right(d, n), t1, o1, fixed, a, b, if k > 0 then k - 1 else 0);
    }
  }

  // The second loop of BigInt_div.
  method Peel(n: nat, current: array<Word>, denom: array<Word>, tmp: array<Word>, out: array<Word>, fixed: bool)
    requires 0 < n <= current.Length && n <= denom.Length && n <= tmp.Length && n <= out.Length
    requires current != denom && current != tmp && current != out && denom != tmp && denom != out && tmp != out
    modifies current, denom, tmp, out
    ensures out[..n] == PeelOf(old(current[..n]), old(denom[..n]), old(tmp[..n]), old(out[..n]), fixed)
  {
    hide Value, Power, Right, Ors, Diff;
    ghost var to := PeelOf(current[..n], denom[..n], tmp[..n], out[..n], fixed);
    var zero := IsZero(n, current);
    while !zero
      invariant zero <==> Value(current[..n]) == 0
      invariant to == PeelOf(current[..n], denom[..n], tmp[..n], out[..n], fixed)
      decreases Value(current[..n])
    {
      RightValue(current[..n]);
      SubtractOnce(n, current, denom, tmp, out, fixed);
      ghost var t, o := tmp[..n], out[..n];
      ShiftRightOne(n, current);
      ShiftRightOne(n, denom);
      assert tmp[..n] == t && out[..n] == o;
      zero := IsZero(n, current);
    }
  }

  // dividend -= denom; answer |= current, if the dividend is large enough.
  method SubtractOnce(n: nat, current: array<Word>, denom: array<Word>, tmp: array<Word>, out: array<Word>,
                      fixed: bool)
    requires 0 < n <= current.Length && n <= denom.Length && n <= tmp.Length && n <= out.Length
    requires current != tmp && current != out && denom != tmp && denom != out && tmp != out
    modifies tmp, out
    ensures var fits := old(Value(tmp[..n]) >= Value(denom[..n]));
            && tmp[..n] == (if fits then Diff(old(tmp[..n]), denom[..n], n, fixed) else old(tmp[..n]))
            && out[..n] == if fits then Ors(old(out[..n]), current[..n], n) else old(out[..n])
  {
    hide Value, Power, Ors, Diff;
    var order := Cmp(n, tmp, denom);
    if order != Smaller {
      Sub(n, tmp, denom, tmp, fixed);
      OrInto(n, out, current, out);
    }
  }

  ghost predicate IsQuotient(a: seq<Word>, b: seq<Word>, q: seq<Word>)
  {
    Value(q) * Value(b) <= Value(a) < Value(q) * Value(b) + Value(b)
  }

  // With the intended borrow, or with one word, the quotient.
  lemma DivExact(a: seq<Word>, b: seq<Word>, fixed: bool)
    requires 0 < |a| == |b| && Value(b) > 0 && (fixed || |b| == 1)
    ensures IsQuotient(a, b, DivOf(a, b, fixed))
  {
    hide Value, Power, AlignOf, PeelOf, Scaled, Aligned;
    var n := |a|;
    OneValue(n);
    ScaledStart(Value(b));
    var k := AlignMeant(a, Pair(n, 1, 0), b, Value(b), 0);
    var (c, d) := AlignOf(a, Pair(n, 1, 0), b);
    PeelStarts(Value(c), Value(d), Value(a), Value(b), k);
    ZeroValue(Zeros(n));
    var rem := PeelMeant(c, d, a, Zeros(n), fixed, Value(a), Value(b), k);
  }

  // BigInt_div. The result may be an operand.
  method Div(n: nat, a: array<Word>, b: array<Word>, out: array<Word>, fixed: bool)
    requires 0 < n <= a.Length && n <= b.Length && n <= out.Length
    requires Value(b[..n]) > 0
    modifies out
    ensures out[..n] == DivOf(old(a[..n]), old(b[..n]), fixed)
    ensures fixed || n == 1 ==> IsQuotient(old(a[..n]), old(b[..n]), out[..n])
  {
    hide Value, Power, AlignOf, PeelOf;
    ghost var sa, sb := a[..n], b[..n];
    var current := new Word[n];
    var denom := new Word[n];
    var tmp := new Word[n];
    FromOne(n, current);
    Copy(n, denom, b);
    Copy(n, tmp, a);
    Align(n, a, current, denom);
    Zero(n, out);
    assert out[..n] == Zeros(n);
    Peel(n, current, denom, tmp, out, fixed);
    if fixed || n == 1 { DivExact(sa, sb, fixed); }
  }

  function DivModOf(a: seq<Word>, b: seq<Word>, fixed: bool): (r: (seq<Word>, seq<Word>))
    requires 0 < |a| == |b| && Value(b) > 0
    ensures |r.0| == |r.1| == |a|
  {
    var q := DivOf(a, b, fixed);
    (q, Diff(a, ProductOf(q, b, |a|, fixed), |a|, fixed))
  }

  // x and y are the quotient and the remainder.
  ghost predicate IsDivMod(a: seq<Word>, b: seq<Word>, x: seq<Word>, y: seq<Word>)
  {
    Value(a) == Value(x) * Value(b) + Value(y) && Value(y) < Value(b)
  }

  lemma DivModExact(a: seq<Word>, b: seq<Word>, fixed: bool)
    requires 0 < |a| == |b| && Value(b) > 0 && (fixed || |b| == 1)
    ensures IsDivMod(a, b, DivModOf(a, b, fixed).0, DivModOf(a, b, fixed).1)
  {
    hide Value, Power, Diff, ProductOf, DivOf;
    var q := DivOf(a, b, fixed);
    DivExact(a, b, fixed);
    ProductExact(q, b, fixed);
    Products(Value(q), Value(b));
    SmallProduct(Value(q) * Value(b), Value(a), Power(|a|));
    DiffMeant(a, ProductOf(q, b, |a|, fixed), fixed);
  }

  lemma SmallProduct(x: nat, a: nat, p: nat)
    requires x <= a < p
    ensures x % p == x
  {
    ModOf(x, p, 0, x);
  }

  // BigInt_divmod
  method DivMod(n: nat, a: array<Word>, b: array<Word>, c: array<Word>, d: array<Word>, fixed: bool)
    requires 0 < n <= a.Length && n <= b.Length && n <= c.Length && n <= d.Length
    requires c != a && c != b && c != d && Value(b[..n]) > 0
    modifies c, d
    ensures (c[..n], d[..n]) == DivModOf(old(a[..n]), old(b[..n]), fixed)
    ensures fixed || n == 1 ==> IsDivMod(old(a[..n]), old(b[..n]), c[..n], d[..n])
  {
    hide Value, Power, Diff, ProductOf, DivOf, IsDivMod;
    ghost var sa, sb := a[..n], b[..n];
    var tmp := new Word[n];
    Div(n, a, b, c, fixed);
    assert a[..n] == sa && b[..n] == sb;
    ghost var q := c[..n];
    MulBasic(n, c, b, tmp, fixed);
    assert a[..n] == sa && c[..n] == q;
    Sub(n, a, tmp, d, fixed);
    assert c[..n] == q;
    if fixed || n == 1 { DivModExact(sa, sb, fixed); }
  }

  // ----- Two words, as written -----

  lemma TwoValue(x: Word, y: Word)
    ensures Value([x, y]) == x + W * y && Power(2) == W * W
  {
    TwoWordValue([x, y], x, y);
    assert Power(1) == W;
  }

  lemma LiteralTwo(x: Word, y: Word, u: Word, v: Word)
    ensures Sum([x, y], [u, v], 2, false) == [Wrap(x + u), Wrap(y + v + if Wrap(x + u) > x then 1 else 0)]
    ensures Diff([x, y], [u, v], 2, false) == [Wrap(x - u), Wrap(y - v)]
  {
    var a, b := [x, y], [u, v];
    assert CarryInto(a, b, 0, false) == 0;
    assert SumWord(a, b, 0, false) == (x + u) % W;
  }

  function Wrap(x: int): Word
  {
    x % W
  }

  // The product of two words in two.
  function LowOf(x: Word, y: Word): Word
  {
    (x * y) % W
  }

  function HighOf(x: Word, y: Word): Word
  {
    WordProduct(x, y);
    (x * y) / W
  }

  lemma FixedTwo(x: Word, y: Word, u: Word, v: Word)
    ensures Sum([x, y], [u, v], 2, true) == [Wrap(x + u), Wrap(y + v + if Wrap(x + u) < x then 1 else 0)]
    ensures Diff([x, y], [u, v], 2, true) == [Wrap(x - u), Wrap(y - v - if x < u then 1 else 0)]
  {
    var a, b := [x, y], [u, v];
    assert CarryInto(a, b, 0, true) == 0;
    assert SumWord(a, b, 0, true) == (x + u) % W;
    assert BorrowInto(a, b, 0) == 0 && BorrowInto(a, b, 1) == if x < u then 1 else 0;
    assert DiffWord(a, b, 0, true) == (x - u) % W;
    assert DiffWord(a, b, 1, true) == (y - v - BorrowInto(a, b, 1)) % W;
  }

  // With two words only the lowest product can make a spurious carry, and then makes two.
  ghost function TwoProduct(a: seq<Word>, b: seq<Word>, fixed: bool): seq<Word>
    requires |a| == |b| == 2
  {
    var lo := LowOf(a[0], b[0]);
    [lo, Wrap(UpperOf(a, b) + if fixed || lo == 0 then 0 else 2)]
  }

  ghost function UpperOf(a: seq<Word>, b: seq<Word>): int
    requires |a| == |b| == 2
  {
    HighOf(a[0], b[0]) + LowOf(a[0], b[1]) + LowOf(a[1], b[0])
  }

  lemma SumEither(x: Word, y: Word, u: Word, v: Word, fixed: bool)
    requires x == 0 || u == 0
    ensures Sum([x, y], [u, v], 2, fixed) == [x + u, Wrap(y + v + if fixed || u == 0 then 0 else 1)]
  {
    if fixed { FixedTwo(x, y, u, v); } else { LiteralTwo(x, y, u, v); }
    assert (x + u) % W == x + u;
  }

  lemma TwoColumns(x: Word, y: Word)
    ensures ProductAt(2, x, y, 0) == [LowOf(x, y), HighOf(x, y)] && ProductAt(2, x, y, 1) == [0, LowOf(x, y)]
  {
    WordProduct(x, y);
  }

  lemma WrapSame(x: Word)
    ensures Wrap(x) == x
  {
  }

  lemma TwoRows(x: Word, i: nat, b: seq<Word>, fixed: bool)
    requires |b| == 2 && i < 2
    ensures var lo, hi := LowOf(x, b[0]), HighOf(x, b[0]);
            RowOf(x, i, b, 2, fixed) ==
              if i == 1 then [0, lo] else [lo, Wrap(hi + LowOf(x, b[1]) + if fixed || lo == 0 then 0 else 1)]
  {
    hide Sum, ProductAt, LowOf, HighOf, Wrap;
    TwoColumns(x, b[0]);
    TwoColumns(x, b[1]);
    var lo, hi := LowOf(x, b[0]), HighOf(x, b[0]);
    WrapSame(lo);
    WrapSame(hi);
    assert RowOf(x, i, b, 0, fixed) == [0, 0];
    if i == 0 {
      SumEither(lo, hi, 0, 0, fixed);
      assert RowOf(x, i, b, 1, fixed) == [lo, hi];
      SumEither(0, LowOf(x, b[1]), lo, hi, fixed);
      assert LowOf(x, b[1]) + hi == hi + LowOf(x, b[1]);
    } else {
      SumEither(0, lo, 0, 0, fixed);
      assert RowOf(x, i, b, 1, fixed) == [0, lo];
    }
  }

  lemma TwoProductIs(a: seq<Word>, b: seq<Word>, fixed: bool)
    requires |a| == |b| == 2
    ensures ProductOf(a, b, 2, fixed) == TwoProduct(a, b, fixed)
  {
    hide Sum, RowOf, LowOf, HighOf, Wrap;
    TwoRows(a[0], 0, b, fixed);
    TwoRows(a[1], 1, b, fixed);
    var lo, y := LowOf(a[0], b[0]), LowOf(a[1], b[0]);
    var c: int := if fixed || lo == 0 then 0 else 1;
    var x: int := HighOf(a[0], b[0]) + LowOf(a[0], b[1]);
    var row: int := Wrap(x + c);
    assert ProductOf(a, b, 0, fixed) == [0, 0];
    SumEither(0, 0, lo, row, fixed);
    assert ProductOf(a, b, 1, fixed) == [lo, Wrap(row + c)];
    SumEither(lo, Wrap(row + c), 0, y, fixed);
    WrapTwice(x + c, c, y);
    assert UpperOf(a, b) + 2 * c == x + c + c + y;
  }

  lemma WrapTwice(x: int, c: int, y: int)
    ensures Wrap(Wrap(Wrap(x) + c) + y) == Wrap(x + c + y)
  {
  }

  // The theorem for two words: as written the product is right if and only if that of the two lower
  // words leaves nothing in the lowest.
  lemma TwoProductExact(a: seq<Word>, b: seq<Word>)
    requires |a| == |b| == 2
    ensures Value(ProductOf(a, b, 2, false)) == (Value(a) * Value(b)) % Power(2) <==> LowOf(a[0], b[0]) == 0
  {
    hide Value, Power, ProductOf, LowOf, HighOf, Wrap;
    TwoProductIs(a, b, false);
    TwoProductIs(a, b, true);
    ProductExact(a, b, true);
    var p, q := TwoProduct(a, b, false), TwoProduct(a, b, true);
    if Value(p) == Value(q) { ValueInjective(p, q); }
    WrapApart(UpperOf(a, b));
    SamePair(LowOf(a[0], b[0]), p[1], q[1]);
  }

  lemma WrapApart(x: int)
    ensures Wrap(x + 2) != Wrap(x)
  {
  }

  lemma SamePair(x: Word, y: Word, z: Word)
    ensures [x, y] == [x, z] <==> y == z
  {
    assert [x, y][1] == y && [x, z][1] == z;
  }

  // As written the remainder of two words is right if and only if the quotient is and that product
  // is. So division is right exactly then.
  lemma TwoDivModExact(a: seq<Word>, b: seq<Word>)
    requires |a| == |b| == 2 && Value(b) > 0
    ensures var (q, y) := DivModOf(a, b, false);
            IsDivMod(a, b, q, y) <==> IsQuotient(a, b, q) && LowOf(q[0], b[0]) == 0
  {
    hide Value, Power, ProductOf, DivOf, Diff, LowOf;
    var q := DivOf(a, b, false);
    var t := ProductOf(q, b, 2, true);
    var y, z := Diff(a, ProductOf(q, b, 2, false), 2, false), Diff(a, t, 2, true);
    Products(Value(q), Value(b));
    ProductExact(q, b, true);
    TwoRemainders(a, q, b);
    if IsQuotient(a, b, q) {
      SmallProduct(Value(q) * Value(b), Value(a), Power(2));
      DiffExact(a, t);
      if Value(y) == Value(z) { ValueInjective(y, z); }
    }
  }

  // The two words that are too many in the product cannot be made up for by a borrow.
  lemma TwoRemainders(a: seq<Word>, q: seq<Word>, b: seq<Word>)
    requires |a| == |q| == |b| == 2
    ensures Diff(a, ProductOf(q, b, 2, false), 2, false) == Diff(a, ProductOf(q, b, 2, true), 2, true) <==>
              LowOf(q[0], b[0]) == 0
  {
    hide *;
    TwoProductWords(q, b);
    TwoOf(a, ProductOf(q, b, 2, false), ProductOf(q, b, 2, true), LowOf(q[0], b[0]), UpperOf(q, b));
  }

  // The words of a product as written and of the one that is meant.
  ghost predicate TwoWordsAre(p: seq<Word>, t: seq<Word>, lo: Word, x: int)
  {
    |p| == |t| == 2 && p[0] == t[0] == lo && t[1] == Wrap(x + 0) && p[1] == Wrap(x + if lo == 0 then 0 else 2)
  }

  // The words of a difference as written and of the one that is meant.
  ghost predicate LiteralDiff(d: seq<Word>, a: seq<Word>, p: seq<Word>)
    requires |a| == |p| == 2
  {
    |d| == 2 && d[0] == Wrap(a[0] as int - p[0]) && d[1] == Wrap(a[1] as int - p[1])
  }

  ghost predicate MeantDiff(e: seq<Word>, a: seq<Word>, t: seq<Word>)
    requires |a| == |t| == 2
  {
    && |e| == 2 && e[0] == Wrap(a[0] as int - t[0])
    && e[1] == Wrap(a[1] as int - t[1] - if a[0] < t[0] then 1 else 0)
  }

  lemma TwoOf(a: seq<Word>, p: seq<Word>, t: seq<Word>, lo: Word, x: int)
    requires |a| == |p| == |t| == 2 && TwoWordsAre(p, t, lo, x)
    ensures Diff(a, p, 2, false) == Diff(a, t, 2, true) <==> lo == 0
  {
    hide *;
    LiteralWords(a, p);
    MeantWords(a, t);
    TwoDiffs(Diff(a, p, 2, false), Diff(a, t, 2, true), a, p, t, lo, x);
  }

  lemma LiteralWords(a: seq<Word>, p: seq<Word>)
    requires |a| == |p| == 2
    ensures LiteralDiff(Diff(a, p, 2, false), a, p)
  {
    DiffWords(a, p);
  }

  lemma MeantWords(a: seq<Word>, t: seq<Word>)
    requires |a| == |t| == 2
    ensures MeantDiff(Diff(a, t, 2, true), a, t)
  {
    DiffWords(a, t);
  }

  lemma TwoProductWords(q: seq<Word>, b: seq<Word>)
    requires |q| == |b| == 2
    ensures TwoWordsAre(ProductOf(q, b, 2, false), ProductOf(q, b, 2, true), LowOf(q[0], b[0]), UpperOf(q, b))
  {
    hide ProductOf, TwoProduct, LowOf, UpperOf, Wrap;
    TwoProductIs(q, b, false);
    TwoProductIs(q, b, true);
    TwoProductParts(q, b);
  }

  lemma TwoProductParts(q: seq<Word>, b: seq<Word>)
    requires |q| == |b| == 2
    ensures var t := TwoProduct(q, b, true); |t| == 2 && t[0] == LowOf(q[0], b[0]) && t[1] == Wrap(UpperOf(q, b) + 0)
    ensures var p := TwoProduct(q, b, false);
            && |p| == 2 && p[0] == LowOf(q[0], b[0])
            && p[1] == Wrap(UpperOf(q, b) + if LowOf(q[0], b[0]) == 0 then 0 else 2)
  {
    hide LowOf, UpperOf, Wrap;
  }

  lemma DiffWords(a: seq<Word>, p: seq<Word>)
    requires |a| == |p| == 2
    ensures var d := Diff(a, p, 2, false);
            |d| == 2 && d[0] == Wrap(a[0] as int - p[0]) && d[1] == Wrap(a[1] as int - p[1])
    ensures var d := Diff(a, p, 2, true);
            && |d| == 2 && d[0] == Wrap(a[0] as int - p[0])
            && d[1] == Wrap(a[1] as int - p[1] - if a[0] < p[0] then 1 else 0)
  {
    hide Diff;
    assert BorrowInto(a, p, 0) == 0 && BorrowInto(a, p, 1) == if a[0] < p[0] then 1 else 0;
  }

  lemma TwoDiffs(d: seq<Word>, e: seq<Word>, a: seq<Word>, p: seq<Word>, t: seq<Word>, lo: Word, x: int)
    requires |a| == |p| == |t| == 2 && TwoWordsAre(p, t, lo, x) && LiteralDiff(d, a, p) && MeantDiff(e, a, t)
    ensures d == e <==> lo == 0
  {
    hide Wrap;
    PairSame(d, e);
    if lo != 0 { TwoBorrow(a[1], x, if a[0] < lo then 1 else 0); }
  }

  lemma PairSame(d: seq<Word>, e: seq<Word>)
    requires |d| == |e| == 2
    ensures d == e <==> d[0] == e[0] && d[1] == e[1]
  {
  }

  lemma TwoBorrow(y: int, x: int, c: int)
    requires 0 <= c <= 1
    ensures Wrap(y - Wrap(x + 2)) != Wrap(y - Wrap(x + 0) - c)
  {
  }

  // One times [1, 1] comes to [1, 3].
  lemma LiteralProduct()
    ensures ProductOf([1, 0], [1, 1], 2, false) == [1, 3]
  {
    hide ProductOf;
    TwoProductIs([1, 0], [1, 1], false);
  }

  // [0, 2] by [1, 1]: the quotient is 1, as it should be.
  lemma LiteralQuotient()
    ensures Value([1, 1]) > 0 && DivOf([0, 2], [1, 1], false) == [1, 0]
  {
    hide Value, Power, Left, Right, Diff, Ors;
    var a, b, c := [0, 2], [1, 1], [1, 0];
    TwoValue(0, 2);
    TwoValue(1, 1);
    TwoValue(1, 0);
    TwoValue(2, 2);
    TwoValue(0, 0);
    assert Pair(2, 1, 0) == c && Zeros(2) == [0, 0];
    Shifts();
    LiteralTwo(0, 2, 1, 1);
    assert AlignOf(a, [2, 0], [2, 2]) == (c, b);
    assert AlignOf(a, c, b) == (c, b);
    assert PeelOf([0, 0], [W / 2, 0], [W - 1, 1], c, false) == c;
    assert PeelOf(c, b, a, [0, 0], false) == c;
  }

  lemma Shifts()
    ensures Left([1, 0], 2) == [2, 0] && Left([1, 1], 2) == [2, 2]
    ensures Right([2, 0], 2) == [1, 0] && Right([2, 2], 2) == [1, 1]
    ensures Right([1, 0], 2) == [0, 0] && Right([1, 1], 2) == [HALF, 0] && Ors([0, 0], [1, 0], 2) == [1, 0]
  {
    hide OrWord;
    ShiftedBits();
  }

  lemma ShiftedBits()
    ensures OrWord(0, 0) == 0 && OrWord(2, 0) == 2 && OrWord(0, 1) == 1 && OrWord(HALF, 0) == HALF
  {
    OrZero(0);
    OrZero(2);
    OrZero(HALF);
    ZeroOr(1);
  }

  // But then the product as written is [1, 3], and what is left is not below the divisor.
  lemma LiteralDivMod()
    ensures Value([1, 1]) > 0 && DivModOf([0, 2], [1, 1], false) == ([1, 0], [W - 1, W - 1])
    ensures !IsDivMod([0, 2], [1, 1], [1, 0], [W - 1, W - 1])
  {
    hide Value, Power, DivOf, ProductOf, Diff;
    LiteralQuotient();
    LiteralProduct();
    LiteralTwo(0, 2, 1, 3);
    TwoValue(1, 1);
    TwoValue(W - 1, W - 1);
  }

  // The method on that input.
  method DivModFails() returns (c: array<Word>, d: array<Word>)
    ensures c.Length == 2 && d.Length == 2 && !IsDivMod([0, 2], [1, 1], c[..2], d[..2])
  {
    hide DivModOf, IsDivMod, Value, Power;
    LiteralDivMod();
    var a, b := new Word[2], new Word[2];
    c, d := new Word[2], new Word[2];
    a[0], a[1], b[0], b[1] := 0, 2, 1, 1;
    assert a[..2] == [0, 2] && b[..2] == [1, 1];
    DivMod(2, a, b, c, d, false);
  }
}
