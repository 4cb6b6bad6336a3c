/** Quantisation tables, quantisation and the zig-zag order. */
module Quantisation {
  import E = EntropyCoding

  type Steps = s: seq<int> | |s| == 64 && forall k :: 0 <= k < 64 ==> 1 <= s[k] <= 255 witness seq(64, _ => 1)

  const ZAG0: seq<nat> := [0, 1, 8, 16, 9, 2, 3, 10, 17, 24, 32, 25, 18, 11, 4, 5]
  const ZAG1: seq<nat> := [12, 19, 26, 33, 40, 48, 41, 34, 27, 20, 13, 6, 7, 14, 21, 28]
  const ZAG2: seq<nat> := [35, 42, 49, 56, 57, 50, 43, 36, 29, 22, 15, 23, 30, 37, 44, 51]
  const ZAG3: seq<nat> := [58, 59, 52, 45, 38, 31, 39, 46, 53, 60, 61, 54, 47, 55, 62, 63]

  /** Natural-order position of zig-zag entry i. */
  function Zag(i: nat): (z: nat)
    requires i < 64
    ensures z < 64
  {
    if i < 16 then ZAG0[i] else if i < 32 then ZAG1[i - 16] else if i < 48 then ZAG2[i - 32] else ZAG3[i - 48]
  }

  /** 0 + 1 + ... + d. */
  function Triangle(d: nat): (t: nat)
    requires d <= 7
    ensures 2 * t == d * (d + 1)
  {
    if d <= 3 then (if d == 0 then 0 else if d == 1 then 1 else if d == 2 then 3 else 6)
    else (if d == 4 then 10 else if d == 5 then 15 else if d == 6 then 21 else 28)
  }

  /** Place of row r, column c in the zig-zag sequence of T.81, figure A.6: anti-diagonals in turn,
      traversed alternately upwards and downwards. */
  function ZigZagIndex(r: nat, c: nat): int
    requires r < 8 && c < 8
  {
    var d := r + c;
    if d <= 7 then Triangle(d) + (if d % 2 == 0 then c else r)
    else 63 - (Triangle(14 - d) + (if d % 2 == 0 then 7 - c else 7 - r))
  }

  /** The first k entries of row stand at places start, start + 1, ... */
  predicate InPlace(row: seq<nat>, start: nat, k: nat)
    requires k <= |row|
  {
    k == 0 ||
    (row[k - 1] < 64 && ZigZagIndex(row[k - 1] / 8, row[k - 1] % 8) == start + k - 1 && InPlace(row, start, k - 1))
  }

  lemma {:induction false} InPlaceAt(row: seq<nat>, start: nat, k: nat, i: nat)
    requires i < k <= |row| && InPlace(row, start, k)
    ensures row[i] < 64 && ZigZagIndex(row[i] / 8, row[i] % 8) == start + i
  {
    if i < k - 1 {
      InPlaceAt(row, start, k - 1, i);
    }
  }

  lemma InPlace0()
    ensures InPlace(ZAG0, 0, 16)
  {
    assert InPlace(ZAG0, 0, 5);
    assert InPlace(ZAG0, 0, 10);
  }

  lemma InPlace1()
    ensures InPlace(ZAG1, 16, 16)
  {
    assert InPlace(ZAG1, 16, 5);
    assert InPlace(ZAG1, 16, 10);
  }

  lemma InPlace2()
    ensures InPlace(ZAG2, 32, 16)
  {
    assert InPlace(ZAG2, 32, 5);
    assert InPlace(ZAG2, 32, 10);
  }

  lemma InPlace3()
    ensures InPlace(ZAG3, 48, 16)
  {
    assert InPlace(ZAG3, 48, 5);
    assert InPlace(ZAG3, 48, 10);
  }

  /** The table is the zig-zag order (and so a permutation of the 64 positions). */
  lemma ZagIsZigZag(i: nat)
    requires i < 64
    ensures ZigZagIndex(Zag(i) / 8, Zag(i) % 8) == i
  {
    hide ZigZagIndex, InPlace;
    InPlace0();
    InPlace1();
    InPlace2();
    InPlace3();
    if i < 16 {
      InPlaceAt(ZAG0, 0, 16, i);
    } else if i < 32 {
      InPlaceAt(ZAG1, 16, 16, i - 16);
    } else if i < 48 {
      InPlaceAt(ZAG2, 32, 16, i - 32);
    } else {
      InPlaceAt(ZAG3, 48, 16, i - 48);
    }
  }

  /** The indices of anti-diagonal d. */
  predicate OnDiagonal(i: int, d: nat)
    requires d <= 14
  {
    if d <= 7 then Triangle(d) <= i <= Triangle(d) + d
    else 63 - Triangle(14 - d) - (14 - d) <= i <= 63 - Triangle(14 - d)
  }

  lemma IndexOnDiagonal(r: nat, c: nat)
    requires r < 8 && c < 8
    ensures OnDiagonal(ZigZagIndex(r, c), r + c) && 0 <= ZigZagIndex(r, c) < 64
  {
  }

  lemma OneDiagonal(i: int, d: nat, e: nat)
    requires d <= 14 && e <= 14
    ensures OnDiagonal(i, d) && OnDiagonal(i, e) ==> d == e
  {
  }

  /** Different places have different indices. */
  lemma IndexInjective(r: nat, c: nat, r': nat, c': nat)
    requires r < 8 && c < 8 && r' < 8 && c' < 8 && ZigZagIndex(r, c) == ZigZagIndex(r', c')
    ensures r == r' && c == c'
  {
    IndexOnDiagonal(r, c);
    IndexOnDiagonal(r', c');
    OneDiagonal(ZigZagIndex(r, c), r + c, r' + c');
    hide OnDiagonal;
  }

  /** So the table finds every place. */
  lemma ZagFinds(r: nat, c: nat)
    requires r < 8 && c < 8
    ensures 0 <= ZigZagIndex(r, c) < 64 && Zag(ZigZagIndex(r, c)) == 8 * r + c
  {
    hide Zag;
    IndexOnDiagonal(r, c);
    var i := ZigZagIndex(r, c);
    hide ZigZagIndex;
    assert 0 <= i < 64;
    ZagIsZigZag(i);
    IndexInjective(r, c, Zag(i) / 8, Zag(i) % 8);
  }

  // ----- tables

  const LUM: seq<nat> := [
    16, 11, 12, 14, 12, 10, 16, 14, 13, 14, 18, 17, 16, 19, 24, 40,
    26, 24, 22, 22, 24, 49, 35, 37, 29, 40, 58, 51, 61, 60, 57, 51,
    56, 55, 64, 72, 92, 78, 64, 68, 87, 69, 55, 56, 80, 109, 81, 87,
    95, 98, 103, 104, 103, 62, 77, 113, 121, 112, 100, 120, 92, 101, 103, 99]

  const CHROMA: seq<nat> := [
    17, 18, 18, 24, 21, 24, 47, 26, 26, 47, 99, 66, 56, 66, 99, 99,
    99, 99, 99, 99, 99, 99, 99, 99, 99, 99, 99, 99, 99, 99, 99, 99,
    99, 99, 99, 99, 99, 99, 99, 99, 99, 99, 99, 99, 99, 99, 99, 99,
    99, 99, 99, 99, 99, 99, 99, 99, 99, 99, 99, 99, 99, 99, 99, 99]

  function Scale(quality: nat): nat
    requires 1 <= quality <= 100
  {
    if quality < 50 then 5000 / quality else 200 - quality * 2
  }

  function Clamp(j: int): (r: int)
    ensures 1 <= r <= 255
  {
    if j < 1 then 1 else if j > 255 then 255 else j
  }

  function Step(base: nat, quality: nat): (q: int)
    requires 1 <= quality <= 100
    ensures 1 <= q <= 255
  {
    Clamp((base * Scale(quality) + 50) / 100)
  }

  function StepTable(base: seq<nat>, quality: nat): Steps
    requires |base| == 64 && 1 <= quality <= 100
  {
    seq(64, k requires 0 <= k < 64 => Step(base[k], quality))
  }

  /** Raising the quality never makes a quantisation step coarser. */
  lemma StepMonotone(base: nat, low: nat, high: nat)
    requires 1 <= low <= high <= 100
    ensures Step(base, high) <= Step(base, low)
  {
    ScaleMonotone(low, high);
    MulMonotone(base, Scale(high), Scale(low));
  }

  /** The scale is fixed by its middle and its end: 50 gives the table itself, 100 steps of one. */
  lemma StepAnchors(base: nat)
    ensures Step(base, 100) == 1
    ensures 1 <= base <= 255 ==> Step(base, 50) == base
  {
  }

  lemma MulMonotone(p: nat, a: nat, b: nat)
    requires a <= b
    ensures p * a <= p * b
  {
  }

  lemma ScaleMonotone(low: nat, high: nat)
    requires 1 <= low <= high <= 100
    ensures Scale(high) <= Scale(low)
  {
    if low < 50 {
      QuotientMonotone(low, if high < 50 then high else 49);
      assert 5000 / 49 == 102;
    }
  }

  lemma QuotientMonotone(a: nat, b: nat)
    requires 1 <= a <= b
    ensures 5000 / b <= 5000 / a
  {
    var p, q := 5000 / a, 5000 / b;
    assert 5000 == a * p + 5000 % a && 5000 == b * q + 5000 % b;
    if p < q {
      MulMonotone(a, p + 1, q);
      MulMonotone(q, a, b);
    }
  }

  // ----- quantisation

  /** Division by the step with rounding to nearest, as the encoder writes it. */
  function Quantise(s: int, q: int): int
    requires q >= 1
  {
    if s < 0 then -Rounded(-s, q) else Rounded(s, q)
  }

  function Rounded(a: nat, q: int): int
    requires q >= 1
  {
    var j := a + q / 2;
    if j < q then 0 else j / q
  }

  /** The quantised value is within half a step of the sample, and quantisation is odd. */
  lemma QuantiseError(s: int, q: int)
    requires q >= 1
    ensures 2 * E.Abs(s - q * Quantise(s, q)) <= q
    ensures Quantise(-s, q) == -Quantise(s, q)
    ensures E.Abs(Quantise(s, q)) <= E.Abs(s)
    ensures Quantise(s, q) != 0 ==> (Quantise(s, q) > 0 <==> s > 0)
  {
    hide Rounded;
    NearestMultiple(E.Abs(s), q);
    ProductSign(q, Rounded(E.Abs(s), q));
  }

  lemma ProductSign(q: int, c: int)
    ensures q * (0 - c) == 0 - q * c
  {
  }

  lemma NearestMultiple(a: nat, q: int)
    requires q >= 1
    ensures 2 * E.Abs(a - q * Rounded(a, q)) <= q && 0 <= Rounded(a, q) <= a
  {
    var j := a + q / 2;
    if j >= q {
      var c := j / q;
      assert j == q * c + j % q;
      NegativeQuotient(q, c);
      SmallQuotient(a, q, c);
    }
  }

  lemma NegativeQuotient(q: int, c: int)
    requires q >= 1
    ensures c < 0 ==> q * c <= -q
  {
    if c < 0 {
      MulMonotone(q, 1, -c);
      ProductSign(q, c);
    }
  }

  lemma SmallQuotient(a: int, q: int, c: int)
    requires a >= 0 && q >= 1
    ensures c > a ==> q * c >= q + a
  {
    if c > a {
      MulMonotone(q, a + 1, c);
      MulMonotone(a, 1, q);
      assert q * (a + 1) == q * a + q;
    }
  }

  /** A transformed block, quantised and in zig-zag order. */
  function QuantiseBlock(p: seq<int>, steps: Steps): (b: E.Block)
    requires |p| == 64
  {
    seq(64, k requires 0 <= k < 64 => Quantise(p[Zag(k)], steps[k]))
  }

  /** A dequantised block, back in natural order, is within half a step of the original everywhere. */
  lemma DequantiseError(p: seq<int>, steps: Steps, k: nat)
    requires |p| == 64 && k < 64
    ensures 2 * E.Abs(p[Zag(k)] - steps[k] * QuantiseBlock(p, steps)[k]) <= steps[k]
  {
    QuantiseError(p[Zag(k)], steps[k]);
  }

  lemma QuantiseInRange(p: seq<int>, steps: Steps)
    requires |p| == 64 && -1024 <= p[0] <= 1016
    requires forall k :: 1 <= k < 64 ==> -1023 <= p[k] <= 1023
    ensures E.BlockInRange(QuantiseBlock(p, steps))
  {
    forall k | 0 <= k < 64
      ensures E.Abs(QuantiseBlock(p, steps)[k]) <= E.Abs(p[Zag(k)])
    {
      QuantiseError(p[Zag(k)], steps[k]);
    }
    forall k | 1 <= k < 64
      ensures Zag(k) >= 1
    {
      ZagPositive(k);
    }
    QuantiseError(p[0], steps[0]);
    assert Zag(0) == 0;
  }

  lemma ZagPositive(k: nat)
    requires 1 <= k < 64
    ensures Zag(k) >= 1
  {
  }
}
