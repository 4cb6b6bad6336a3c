/** The forward DCT.

    DCT2D is the encoder's in-place fixed-point butterfly, with every 16-bit cast and 32-bit
    operation written out. Transform is the plain reference: two passes of matrix-vector products
    with the integer cosine matrix. They agree on every block of 8-bit samples, and the reference
    gives the bounds the entropy coder relies on. */
module Dct {
  import C = Cosine

  /** static_cast<int16>. */
  function Cast16(x: int): int {
    if -32768 <= x <= 32767 then x else (x + 32768) % 65536 - 32768
  }

  /** The value of a 32-bit signed operation whose exact result is x. */
  function Int32(x: int): int {
    if -0x8000_0000 <= x <= 0x7FFF_FFFF then x else (x + 0x8000_0000) % 0x1_0000_0000 - 0x8000_0000
  }

  function Mul(v: int, c: int): int {
    Int32(Cast16(v) * c)
  }

  /** Rounding shift right by 2, 5, 11 or 18 bits: x is divided by d, a power of two. */
  function Descale(x: int, d: int): int
    requires d > 0
  {
    Int32(x + d / 2) / d
  }

  datatype Vec8 = Vec8(v0: int, v1: int, v2: int, v3: int, v4: int, v5: int, v6: int, v7: int)

  // ----- the butterfly

  /** DCT1D of the source, operation by operation. */
  function Butterfly(s: Vec8): Vec8 {
    var t0, t7 := Int32(s.v0 + s.v7), Int32(s.v0 - s.v7);
    var t1, t6 := Int32(s.v1 + s.v6), Int32(s.v1 - s.v6);
    var t2, t5 := Int32(s.v2 + s.v5), Int32(s.v2 - s.v5);
    var t3, t4 := Int32(s.v3 + s.v4), Int32(s.v3 - s.v4);
    var t10, t13 := Int32(t0 + t3), Int32(t0 - t3);
    var t11, t12 := Int32(t1 + t2), Int32(t1 - t2);
    var u1 := Mul(Int32(t12 + t13), 4433);
    var s2 := Int32(u1 + Mul(t13, 6270));
    var s6 := Int32(u1 + Mul(t12, -15137));
    var odd := OddPart(t4, t5, t6, t7);
    Vec8(Int32(t10 + t11), odd.v1, s2, odd.v3, Int32(t10 - t11), odd.v5, s6, odd.v7)
  }

  function OddPart(t4: int, t5: int, t6: int, t7: int): Vec8 {
    var u1, u2, u3, u4 := Int32(t4 + t7), Int32(t5 + t6), Int32(t4 + t6), Int32(t5 + t7);
    var z5 := Mul(Int32(u3 + u4), 9633);
    var m4, m5, m6, m7 := Mul(t4, 2446), Mul(t5, 16819), Mul(t6, 25172), Mul(t7, 12299);
    var n1, n2 := Mul(u1, -7373), Mul(u2, -20995);
    var n3, n4 := Int32(Mul(u3, -16069) + z5), Int32(Mul(u4, -3196) + z5);
    Vec8(0, Int32(Int32(m7 + n1) + n4), 0, Int32(Int32(m6 + n2) + n3), 0,
         Int32(Int32(m5 + n2) + n4), 0, Int32(Int32(m4 + n1) + n3))
  }

  // ----- the reference

  /** Row u of the integer cosine matrix: about 8192 * sqrt 2 * cos((2x + 1)u pi / 16), and 1 where
      that would be constant up to sign. */
  function Basis(u: nat): Vec8
    requires u < 8
  {
    match u
    case 0 => Vec8(1, 1, 1, 1, 1, 1, 1, 1)
    case 1 => Vec8(11363, 9633, 6437, 2260, -2260, -6437, -9633, -11363)
    case 2 => Vec8(10703, 4433, -4433, -10703, -10703, -4433, 4433, 10703)
    case 3 => Vec8(9633, -2259, -11362, -6436, 6436, 11362, 2259, -9633)
    case 4 => Vec8(1, -1, -1, 1, 1, -1, -1, 1)
    case 5 => Vec8(6437, -11362, 2261, 9633, -9633, -2261, 11362, -6437)
    case 6 => Vec8(4433, -10704, 10704, -4433, -4433, 10704, -10704, 4433)
    case _ => Vec8(2260, -6436, 9633, -11363, 11363, -9633, 6436, -2260)
  }

  function Dot(a: Vec8, b: Vec8): int {
    a.v0 * b.v0 + a.v1 * b.v1 + a.v2 * b.v2 + a.v3 * b.v3 + a.v4 * b.v4 + a.v5 * b.v5 + a.v6 * b.v6 + a.v7 * b.v7
  }

  function Exact(s: Vec8): Vec8 {
    Vec8(Dot(Basis(0), s), Dot(Basis(1), s), Dot(Basis(2), s), Dot(Basis(3), s),
         Dot(Basis(4), s), Dot(Basis(5), s), Dot(Basis(6), s), Dot(Basis(7), s))
  }

  function Round(x: int, d: nat): int
    requires d > 0
  {
    (x + d / 2) / d
  }

  function RowScale(f: Vec8): Vec8 {
    Vec8(4 * f.v0, Round(f.v1, 2048), Round(f.v2, 2048), Round(f.v3, 2048),
         4 * f.v4, Round(f.v5, 2048), Round(f.v6, 2048), Round(f.v7, 2048))
  }

  function ColScale(f: Vec8): Vec8 {
    Vec8(Round(f.v0, 32), Round(f.v1, 262144), Round(f.v2, 262144), Round(f.v3, 262144),
         Round(f.v4, 32), Round(f.v5, 262144), Round(f.v6, 262144), Round(f.v7, 262144))
  }

  function Get(s: Vec8, k: nat): int
    requires k < 8
  {
    match k
    case 0 => s.v0 case 1 => s.v1 case 2 => s.v2 case 3 => s.v3
    case 4 => s.v4 case 5 => s.v5 case 6 => s.v6 case _ => s.v7
  }

  type Samples = s: seq<int> | |s| == 64 witness seq(64, _ => 0)

  function RowOf(p: Samples, r: nat): Vec8
    requires r < 8
  {
    Vec8(p[8 * r], p[8 * r + 1], p[8 * r + 2], p[8 * r + 3], p[8 * r + 4], p[8 * r + 5], p[8 * r + 6], p[8 * r + 7])
  }

  function ColOf(p: Samples, c: nat): Vec8
    requires c < 8
  {
    Vec8(p[c], p[8 + c], p[16 + c], p[24 + c], p[32 + c], p[40 + c], p[48 + c], p[56 + c])
  }

  function RowPass(p: Samples): Samples {
    seq(64, k requires 0 <= k < 64 => Get(RowScale(Exact(RowOf(p, k / 8))), k % 8))
  }

  function ColPass(p: Samples): Samples {
    seq(64, k requires 0 <= k < 64 => Get(ColScale(Exact(ColOf(p, k % 8))), k / 8))
  }

  /** The reference transform. */
  function Transform(p: Samples): Samples {
    ColPass(RowPass(p))
  }

  // ----- no truncation, no overflow

  /** All entries lie in a window of width 8160 within [-4096, 4096]. */
  ghost predicate Within(s: Vec8, lo: int) {
    && -4096 <= lo <= -128
    && lo <= s.v0 <= lo + 8160 && lo <= s.v1 <= lo + 8160 && lo <= s.v2 <= lo + 8160 && lo <= s.v3 <= lo + 8160
    && lo <= s.v4 <= lo + 8160 && lo <= s.v5 <= lo + 8160 && lo <= s.v6 <= lo + 8160 && lo <= s.v7 <= lo + 8160
    && s.v0 <= 4096 && s.v1 <= 4096 && s.v2 <= 4096 && s.v3 <= 4096
    && s.v4 <= 4096 && s.v5 <= 4096 && s.v6 <= 4096 && s.v7 <= 4096
  }

  ghost predicate Small(t: int) { -8160 <= t <= 8160 }

  ghost predicate In16(x: int) { -32768 <= x <= 32767 }

  ghost predicate In32(x: int) { -0x8000_0000 <= x <= 0x7FFF_FFFF }

  /** Operand of a cast to 16 bits, and product with a constant. */
  ghost predicate MulFits(v: int, c: int) { In16(v) && In32(v * c) }

  lemma IntExact(x: int)
    requires In32(x)
    ensures Int32(x) == x
  {
  }

  lemma MulExact(v: int, c: int)
    requires MulFits(v, c)
    ensures Mul(v, c) == v * c
  {
  }

  /** Every operation of the odd half stays in its type. */
  ghost predicate OddSafe(t4: int, t5: int, t6: int, t7: int) {
    var u1, u2, u3, u4 := t4 + t7, t5 + t6, t4 + t6, t5 + t7;
    var n3, n4 := u3 * -16069 + (u3 + u4) * 9633, u4 * -3196 + (u3 + u4) * 9633;
    && In32(u1) && In32(u2) && In32(u3) && In32(u4) && In32(u3 + u4)
    && MulFits(u3 + u4, 9633) && MulFits(t4, 2446) && MulFits(t5, 16819) && MulFits(t6, 25172) && MulFits(t7, 12299)
    && MulFits(u1, -7373) && MulFits(u2, -20995) && MulFits(u3, -16069) && MulFits(u4, -3196)
    && In32(n3) && In32(n4)
    && In32(t7 * 12299 + u1 * -7373) && In32(t6 * 25172 + u2 * -20995)
    && In32(t5 * 16819 + u2 * -20995) && In32(t4 * 2446 + u1 * -7373)
    && In32(t7 * 12299 + u1 * -7373 + n4) && In32(t6 * 25172 + u2 * -20995 + n3)
    && In32(t5 * 16819 + u2 * -20995 + n4) && In32(t4 * 2446 + u1 * -7373 + n3)
  }

  /** The largest operand of a 16-bit cast is 4 * 8160 = 32640. */
  lemma OddInRange(t4: int, t5: int, t6: int, t7: int)
    requires Small(t4) && Small(t5) && Small(t6) && Small(t7)
    ensures OddSafe(t4, t5, t6, t7)
  {
  }

  /** So the odd half is the linear forms it looks like. */
  lemma OddExact(t4: int, t5: int, t6: int, t7: int)
    requires OddSafe(t4, t5, t6, t7)
    ensures OddPart(t4, t5, t6, t7)
         == Vec8(0, 11363 * t7 + 9633 * t6 + 6437 * t5 + 2260 * t4, 0, 9633 * t7 - 2259 * t6 - 11362 * t5 - 6436 * t4,
                 0, 6437 * t7 - 11362 * t6 + 2261 * t5 + 9633 * t4, 0, 2260 * t7 - 6436 * t6 + 9633 * t5 - 11363 * t4)
  {
    hide Mul, Int32, Cast16, In32, In16, MulFits, OddSafe;
    OddFirst(t4, t5, t6, t7);
    OddSecond(t4, t5, t6, t7);
  }

  lemma OddFirst(t4: int, t5: int, t6: int, t7: int)
    requires OddSafe(t4, t5, t6, t7)
    ensures OddPart(t4, t5, t6, t7).v1 == 11363 * t7 + 9633 * t6 + 6437 * t5 + 2260 * t4
    ensures OddPart(t4, t5, t6, t7).v5 == 6437 * t7 - 11362 * t6 + 2261 * t5 + 9633 * t4
  {
    hide Mul, Int32, Cast16, In32, In16, MulFits;
    var u1, u2, u3, u4 := t4 + t7, t5 + t6, t4 + t6, t5 + t7;
    IntExact(u1);
    IntExact(u2);
    IntExact(u3);
    IntExact(u4);
    IntExact(u3 + u4);
    MulExact(u3 + u4, 9633);
    MulExact(t5, 16819);
    MulExact(t7, 12299);
    MulExact(u1, -7373);
    MulExact(u2, -20995);
    MulExact(u4, -3196);
    var n4 := u4 * -3196 + (u3 + u4) * 9633;
    IntExact(n4);
    IntExact(t7 * 12299 + u1 * -7373);
    IntExact(t5 * 16819 + u2 * -20995);
    IntExact(t7 * 12299 + u1 * -7373 + n4);
    IntExact(t5 * 16819 + u2 * -20995 + n4);
  }

  lemma OddSecond(t4: int, t5: int, t6: int, t7: int)
    requires OddSafe(t4, t5, t6, t7)
    ensures OddPart(t4, t5, t6, t7).v3 == 9633 * t7 - 2259 * t6 - 11362 * t5 - 6436 * t4
    ensures OddPart(t4, t5, t6, t7).v7 == 2260 * t7 - 6436 * t6 + 9633 * t5 - 11363 * t4
  {
    hide Mul, Int32, Cast16, In32, In16, MulFits;
    var u1, u2, u3, u4 := t4 + t7, t5 + t6, t4 + t6, t5 + t7;
    IntExact(u1);
    IntExact(u2);
    IntExact(u3);
    IntExact(u4);
    IntExact(u3 + u4);
    MulExact(u3 + u4, 9633);
    MulExact(t4, 2446);
    MulExact(t6, 25172);
    MulExact(u1, -7373);
    MulExact(u2, -20995);
    MulExact(u3, -16069);
    var n3 := u3 * -16069 + (u3 + u4) * 9633;
    IntExact(n3);
    IntExact(t6 * 25172 + u2 * -20995);
    IntExact(t4 * 2446 + u1 * -7373);
    IntExact(t6 * 25172 + u2 * -20995 + n3);
    IntExact(t4 * 2446 + u1 * -7373 + n3);
  }

  /** Every operation of the even half stays in its type. */
  ghost predicate EvenSafe(t0: int, t1: int, t2: int, t3: int) {
    var t10, t13, t11, t12 := t0 + t3, t0 - t3, t1 + t2, t1 - t2;
    && In32(t10) && In32(t13) && In32(t11) && In32(t12) && In32(t12 + t13)
    && MulFits(t12 + t13, 4433) && MulFits(t13, 6270) && MulFits(t12, -15137)
    && In32((t12 + t13) * 4433 + t13 * 6270) && In32((t12 + t13) * 4433 + t12 * -15137)
    && In32(t10 + t11) && In32(t10 - t11)
  }

  lemma EvenInRange(t0: int, t1: int, t2: int, t3: int, lo: int)
    requires -8192 <= lo && lo + 16320 <= 24512
    requires lo <= t0 <= lo + 16320 && lo <= t1 <= lo + 16320 && lo <= t2 <= lo + 16320 && lo <= t3 <= lo + 16320
    ensures EvenSafe(t0, t1, t2, t3)
  {
  }

  /** The eight sums and differences that DCT1D begins with. */
  ghost predicate SumsSafe(s: Vec8) {
    && In32(s.v0 + s.v7) && In32(s.v1 + s.v6) && In32(s.v2 + s.v5) && In32(s.v3 + s.v4)
    && In32(s.v0 - s.v7) && In32(s.v1 - s.v6) && In32(s.v2 - s.v5) && In32(s.v3 - s.v4)
  }

  /** No cast of DCT1D truncates and no operation overflows, intermediate results included. */
  ghost predicate ButterflySafe(s: Vec8) {
    && SumsSafe(s) && EvenSafe(s.v0 + s.v7, s.v1 + s.v6, s.v2 + s.v5, s.v3 + s.v4)
    && OddSafe(s.v3 - s.v4, s.v2 - s.v5, s.v1 - s.v6, s.v0 - s.v7)
  }

  lemma ButterflyInRange(s: Vec8, lo: int)
    requires Within(s, lo)
    ensures ButterflySafe(s)
  {
    hide OddSafe, EvenSafe;
    EvenInRange(s.v0 + s.v7, s.v1 + s.v6, s.v2 + s.v5, s.v3 + s.v4, 2 * lo);
    OddInRange(s.v3 - s.v4, s.v2 - s.v5, s.v1 - s.v6, s.v0 - s.v7);
  }

  /** Where nothing leaves its type, the butterfly is the matrix product. */
  lemma ButterflyExact(s: Vec8)
    requires ButterflySafe(s)
    ensures Butterfly(s) == Exact(s)
  {
    hide OddPart, OddSafe, Mul, Int32, Cast16, Exact, In32, In16, MulFits;
    var t0, t1, t2, t3 := s.v0 + s.v7, s.v1 + s.v6, s.v2 + s.v5, s.v3 + s.v4;
    var t10, t13, t11, t12 := t0 + t3, t0 - t3, t1 + t2, t1 - t2;
    IntExact(t0);
    IntExact(t1);
    IntExact(t2);
    IntExact(t3);
    IntExact(s.v0 - s.v7);
    IntExact(s.v1 - s.v6);
    IntExact(s.v2 - s.v5);
    IntExact(s.v3 - s.v4);
    IntExact(t10);
    IntExact(t13);
    IntExact(t11);
    IntExact(t12);
    IntExact(t12 + t13);
    MulExact(t12 + t13, 4433);
    MulExact(t13, 6270);
    MulExact(t12, -15137);
    IntExact((t12 + t13) * 4433 + t13 * 6270);
    IntExact((t12 + t13) * 4433 + t12 * -15137);
    IntExact(t10 + t11);
    IntExact(t10 - t11);
    OddExact(s.v3 - s.v4, s.v2 - s.v5, s.v1 - s.v6, s.v0 - s.v7);
    ExactForms(s);
  }

  /** The basis rows, with their symmetry made visible. */
  lemma ExactForms(s: Vec8)
    ensures var t4, t5, t6, t7 := s.v3 - s.v4, s.v2 - s.v5, s.v1 - s.v6, s.v0 - s.v7;
      var t12, t13 := s.v1 + s.v6 - s.v2 - s.v5, s.v0 + s.v7 - s.v3 - s.v4;
      Exact(s) == Vec8(
        s.v0 + s.v1 + s.v2 + s.v3 + s.v4 + s.v5 + s.v6 + s.v7, 11363 * t7 + 9633 * t6 + 6437 * t5 + 2260 * t4,
        10703 * t13 + 4433 * t12, 9633 * t7 - 2259 * t6 - 11362 * t5 - 6436 * t4,
        s.v0 + s.v7 + s.v3 + s.v4 - s.v1 - s.v6 - s.v2 - s.v5, 6437 * t7 - 11362 * t6 + 2261 * t5 + 9633 * t4,
        4433 * t13 - 10704 * t12, 2260 * t7 - 6436 * t6 + 9633 * t5 - 11363 * t4)
  {
  }

  // ----- bounds

  ghost predicate Bounded(s: Vec8, lo: int, hi: int) {
    && lo <= s.v0 <= hi && lo <= s.v1 <= hi && lo <= s.v2 <= hi && lo <= s.v3 <= hi
    && lo <= s.v4 <= hi && lo <= s.v5 <= hi && lo <= s.v6 <= hi && lo <= s.v7 <= hi
  }

  /** Bounds from the L1 norms of the basis rows; w is the width of the window. */
  ghost predicate ExactWithin(f: Vec8, lo: int, hi: int) {
    var w := hi - lo;
    && 8 * lo <= f.v0 <= 8 * hi && -4 * w <= f.v4 <= 4 * w
    && EvenWithin(f.v2, f.v6, w) && OddWithin(f.v1, f.v3, f.v5, f.v7, w)
  }

  ghost predicate EvenWithin(f2: int, f6: int, w: int) {
    -30272 * w <= f2 <= 30272 * w && -30274 * w <= f6 <= 30274 * w
  }

  ghost predicate OddWithin(f1: int, f3: int, f5: int, f7: int, w: int) {
    && -29693 * w <= f1 <= 29693 * w && -29690 * w <= f3 <= 29690 * w
    && -29693 * w <= f5 <= 29693 * w && -29692 * w <= f7 <= 29692 * w
  }

  lemma ExactBounds(s: Vec8, lo: int, hi: int)
    requires Bounded(s, lo, hi)
    ensures ExactWithin(Exact(s), lo, hi)
  {
    hide Exact, EvenWithin, OddWithin, Bounded;
    var w := hi - lo;
    ExactForms(s);
    Differences(s, lo, hi);
    Totals(s, lo, hi);
    OddBounds(s.v3 - s.v4, s.v2 - s.v5, s.v1 - s.v6, s.v0 - s.v7, w);
    EvenBounds(s.v1 + s.v6 - s.v2 - s.v5, s.v0 + s.v7 - s.v3 - s.v4, w);
  }

  lemma Differences(s: Vec8, lo: int, hi: int)
    requires Bounded(s, lo, hi)
    ensures var w := hi - lo;
      && -w <= s.v3 - s.v4 <= w && -w <= s.v2 - s.v5 <= w && -w <= s.v1 - s.v6 <= w && -w <= s.v0 - s.v7 <= w
      && -2 * w <= s.v1 + s.v6 - s.v2 - s.v5 <= 2 * w && -2 * w <= s.v0 + s.v7 - s.v3 - s.v4 <= 2 * w
  {
  }

  lemma Totals(s: Vec8, lo: int, hi: int)
    requires Bounded(s, lo, hi)
    ensures 8 * lo <= s.v0 + s.v1 + s.v2 + s.v3 + s.v4 + s.v5 + s.v6 + s.v7 <= 8 * hi
    ensures -4 * (hi - lo) <= s.v0 + s.v7 + s.v3 + s.v4 - s.v1 - s.v6 - s.v2 - s.v5 <= 4 * (hi - lo)
  {
  }

  lemma OddBounds(t4: int, t5: int, t6: int, t7: int, w: int)
    requires -w <= t4 <= w && -w <= t5 <= w && -w <= t6 <= w && -w <= t7 <= w
    ensures OddWithin(11363 * t7 + 9633 * t6 + 6437 * t5 + 2260 * t4, 9633 * t7 - 2259 * t6 - 11362 * t5 - 6436 * t4,
                      6437 * t7 - 11362 * t6 + 2261 * t5 + 9633 * t4, 2260 * t7 - 6436 * t6 + 9633 * t5 - 11363 * t4, w)
  {
  }

  lemma EvenBounds(t12: int, t13: int, w: int)
    requires -2 * w <= t12 <= 2 * w && -2 * w <= t13 <= 2 * w
    ensures EvenWithin(10703 * t13 + 4433 * t12, 4433 * t13 - 10704 * t12, w)
  {
  }

  // ----- both passes

  ghost predicate InByteRange(p: Samples) {
    forall k :: 0 <= k < 64 ==> -128 <= p[k] <= 127
  }

  /** The row pass as the source writes it. */
  function RowOut(f: Vec8): Vec8 {
    Vec8(Int32(4 * f.v0), Descale(f.v1, 2048), Descale(f.v2, 2048), Descale(f.v3, 2048),
         Int32(4 * f.v4), Descale(f.v5, 2048), Descale(f.v6, 2048), Descale(f.v7, 2048))
  }

  function ColOut(f: Vec8): Vec8 {
    Vec8(Descale(f.v0, 32), Descale(f.v1, 262144), Descale(f.v2, 262144), Descale(f.v3, 262144),
         Descale(f.v4, 32), Descale(f.v5, 262144), Descale(f.v6, 262144), Descale(f.v7, 262144))
  }

  ghost predicate Fits(f: Vec8) {
    Bounded(f, -0x1000_0000, 0x1000_0000)
  }

  lemma WithinFits(f: Vec8, lo: int, hi: int)
    requires ExactWithin(f, lo, hi) && -4096 <= lo <= hi <= 4096 && hi - lo <= 8160
    ensures Fits(f)
  {
  }

  lemma DescaleExact(x: int, d: nat)
    requires d > 0 && -0x1000_0000 <= x <= 0x1000_0000 && d <= 262144
    ensures Descale(x, d) == Round(x, d)
  {
    IntExact(x + d / 2);
  }

  /** The shifts left and the rounding sums of the row pass. */
  ghost predicate RowOutSafe(f: Vec8) {
    && In32(4 * f.v0) && In32(f.v1 + 1024) && In32(f.v2 + 1024) && In32(f.v3 + 1024)
    && In32(4 * f.v4) && In32(f.v5 + 1024) && In32(f.v6 + 1024) && In32(f.v7 + 1024)
  }

  /** The rounding sums of the column pass. */
  ghost predicate ColOutSafe(f: Vec8) {
    && In32(f.v0 + 16) && In32(f.v1 + 131072) && In32(f.v2 + 131072) && In32(f.v3 + 131072)
    && In32(f.v4 + 16) && In32(f.v5 + 131072) && In32(f.v6 + 131072) && In32(f.v7 + 131072)
  }

  lemma RowOutExact(f: Vec8)
    requires Fits(f)
    ensures RowOut(f) == RowScale(f) && RowOutSafe(f)
  {
    hide Descale, Round, Int32;
    IntExact(4 * f.v0);
    IntExact(4 * f.v4);
    DescaleExact(f.v1, 2048);
    DescaleExact(f.v2, 2048);
    DescaleExact(f.v3, 2048);
    DescaleExact(f.v5, 2048);
    DescaleExact(f.v6, 2048);
    DescaleExact(f.v7, 2048);
  }

  lemma ColOutExact(f: Vec8)
    requires Fits(f)
    ensures ColOut(f) == ColScale(f) && ColOutSafe(f)
  {
    hide Descale, Round, Int32;
    DescaleExact(f.v0, 32);
    DescaleExact(f.v4, 32);
    DescaleExact(f.v1, 262144);
    DescaleExact(f.v2, 262144);
    DescaleExact(f.v3, 262144);
    DescaleExact(f.v5, 262144);
    DescaleExact(f.v6, 262144);
    DescaleExact(f.v7, 262144);
  }

  /** Window of the values the row pass leaves in column c. */
  function ColLow(c: nat): int { if c == 0 then -4096 else if c == 4 then -4080 else -3770 }

  function ColHigh(c: nat): int { if c == 0 then 4064 else if c == 4 then 4080 else 3770 }

  lemma RowScaleBounds(f: Vec8)
    requires ExactWithin(f, -128, 127)
    ensures forall c :: 0 <= c < 8 ==> ColLow(c) <= Get(RowScale(f), c) <= ColHigh(c)
  {
  }

  /** One row of 8-bit samples. */
  lemma RowExact(s: Vec8)
    requires Bounded(s, -128, 127)
    ensures ButterflySafe(s) && RowOutSafe(Exact(s))
    ensures RowOut(Butterfly(s)) == RowScale(Exact(s))
    ensures forall c :: 0 <= c < 8 ==> ColLow(c) <= Get(RowScale(Exact(s)), c) <= ColHigh(c)
  {
    hide Exact, Butterfly, ButterflySafe, RowOut, RowOutSafe, RowScale, Fits, ExactWithin, Get;
    ButterflyInRange(s, -128);
    ButterflyExact(s);
    ExactBounds(s, -128, 127);
    WithinFits(Exact(s), -128, 127);
    RowOutExact(Exact(s));
    RowScaleBounds(Exact(s));
  }

  lemma ColScaleBounds(f: Vec8, lo: int, hi: int)
    requires ExactWithin(f, lo, hi) && -4096 <= lo <= hi <= 4080 && hi - lo <= 8160
    ensures forall u :: 1 <= u < 8 ==> -1023 <= Get(ColScale(f), u) <= 1023
    ensures Round(8 * lo, 32) <= ColScale(f).v0 <= Round(8 * hi, 32)
  {
  }

  lemma ColExact(s: Vec8, c: nat)
    requires c < 8 && Bounded(s, ColLow(c), ColHigh(c))
    ensures ButterflySafe(s) && ColOutSafe(Exact(s))
    ensures ColOut(Butterfly(s)) == ColScale(Exact(s))
    ensures forall u {:trigger Get(ColScale(Exact(s)), u)} :: 1 <= u < 8 ==> -1023 <= Get(ColScale(Exact(s)), u) <= 1023
    ensures if c == 0 then -1024 <= ColScale(Exact(s)).v0 <= 1016 else -1023 <= ColScale(Exact(s)).v0 <= 1023
  {
    hide Exact, Butterfly, ButterflySafe, ColOut, ColOutSafe, ColScale, Fits, ExactWithin, Get;
    var lo, hi := ColLow(c), ColHigh(c);
    ButterflyInRange(s, lo);
    ButterflyExact(s);
    ExactBounds(s, lo, hi);
    WithinFits(Exact(s), lo, hi);
    ColOutExact(Exact(s));
    ColScaleBounds(Exact(s), lo, hi);
  }

  lemma RowPassBounds(p: Samples, c: nat)
    requires InByteRange(p) && c < 8
    ensures Bounded(ColOf(RowPass(p), c), ColLow(c), ColHigh(c))
  {
    hide RowPass, ColLow, ColHigh, Bounded, InByteRange;
    forall r | 0 <= r < 8
      ensures ColLow(c) <= RowPass(p)[8 * r + c] <= ColHigh(c)
    {
      RowPassAt(p, r, c);
    }
    assert forall r :: 0 <= r < 8 ==> ColLow(c) <= RowPass(p)[8 * r + c] <= ColHigh(c);
    BoundedByIndex(RowPass(p), c, ColLow(c), ColHigh(c));
  }

  lemma RowPassAt(p: Samples, r: nat, c: nat)
    requires InByteRange(p) && r < 8 && c < 8
    ensures ColLow(c) <= RowPass(p)[8 * r + c] <= ColHigh(c)
  {
    hide Exact, RowScale, Get, ButterflySafe, RowOutSafe, Butterfly, RowOut, ColLow, ColHigh;
    RowExact(RowOf(p, r));
    assert (8 * r + c) / 8 == r && (8 * r + c) % 8 == c;
  }

  lemma BoundedByIndex(p: Samples, c: nat, lo: int, hi: int)
    requires c < 8 && forall r :: 0 <= r < 8 ==> lo <= p[8 * r + c] <= hi
    ensures Bounded(ColOf(p, c), lo, hi)
  {
    assert lo <= p[8 * 0 + c] <= hi && lo <= p[8 * 1 + c] <= hi && lo <= p[8 * 2 + c] <= hi && lo <= p[8 * 3 + c] <= hi;
    assert lo <= p[8 * 4 + c] <= hi && lo <= p[8 * 5 + c] <= hi && lo <= p[8 * 6 + c] <= hi && lo <= p[8 * 7 + c] <= hi;
  }

  /** In neither pass over a block of 8-bit samples does any 16-bit cast truncate or any 32-bit operation
      overflow. */
  lemma TransformSafe(p: Samples, i: nat)
    requires InByteRange(p) && i < 8
    ensures ButterflySafe(RowOf(p, i)) && RowOutSafe(Exact(RowOf(p, i)))
    ensures ButterflySafe(ColOf(RowPass(p), i)) && ColOutSafe(Exact(ColOf(RowPass(p), i)))
  {
    hide ButterflySafe, RowOutSafe, ColOutSafe, Exact, RowPass;
    RowExact(RowOf(p, i));
    RowPassBounds(p, i);
    ColExact(ColOf(RowPass(p), i), i);
  }

  /** Every output fits the entropy coder: the DC term in [-1024, 1016], the rest in [-1023, 1023]. */
  lemma TransformBounds(p: Samples)
    requires InByteRange(p)
    ensures -1024 <= Transform(p)[0] <= 1016
    ensures forall k :: 1 <= k < 64 ==> -1023 <= Transform(p)[k] <= 1023
  {
    hide Exact, ColScale, RowPass;
    forall k | 0 <= k < 64
      ensures k == 0 ==> -1024 <= Transform(p)[k] <= 1016
      ensures k > 0 ==> -1023 <= Transform(p)[k] <= 1023
    {
      RowPassBounds(p, k % 8);
      ColExact(ColOf(RowPass(p), k % 8), k % 8);
    }
  }

  // ----- the DC term

  /** Sum of the first n entries. */
  function Sum(p: Samples, n: nat): int
    requires n <= 64
  {
    if n == 0 then 0 else Sum(p, n - 1) + p[n - 1]
  }

  function RowSum(p: Samples, r: nat): int
    requires r < 8
  {
    Dot(Basis(0), RowOf(p, r))
  }

  lemma SumRow(p: Samples, r: nat)
    requires r < 8
    ensures Sum(p, 8 * r + 8) == Sum(p, 8 * r) + RowSum(p, r)
  {
    var q := 8 * r;
    assert Sum(p, q + 2) == Sum(p, q + 1) + p[q + 1];
    assert Sum(p, q + 4) == Sum(p, q + 3) + p[q + 3];
    assert Sum(p, q + 6) == Sum(p, q + 5) + p[q + 5];
  }

  lemma RowPassDc(p: Samples, r: nat)
    requires r < 8
    ensures RowPass(p)[8 * r] == 4 * RowSum(p, r)
  {
    assert (8 * r) / 8 == r && (8 * r) % 8 == 0;
  }

  lemma SumRows(p: Samples)
    ensures Sum(p, 64) == RowSum(p, 0) + RowSum(p, 1) + RowSum(p, 2) + RowSum(p, 3)
                        + RowSum(p, 4) + RowSum(p, 5) + RowSum(p, 6) + RowSum(p, 7)
  {
    hide RowSum;
    SumRow(p, 0);
    SumRow(p, 1);
    SumRow(p, 2);
    SumRow(p, 3);
    SumRow(p, 4);
    SumRow(p, 5);
    SumRow(p, 6);
    SumRow(p, 7);
    hide Sum;
    assert Sum(p, 0) == 0 by {
      SumNone(p);
    }
  }

  lemma SumNone(p: Samples)
    ensures Sum(p, 0) == 0
  {
  }

  /** The DC output is the rounded sum of the block, exactly. */
  lemma TransformDc(p: Samples)
    ensures Transform(p)[0] == (4 * Sum(p, 64) + 16) / 32
  {
    hide Sum, RowSum, RowPass;
    SumRows(p);
    RowPassDc(p, 0);
    RowPassDc(p, 1);
    RowPassDc(p, 2);
    RowPassDc(p, 3);
    RowPassDc(p, 4);
    RowPassDc(p, 5);
    RowPassDc(p, 6);
    RowPassDc(p, 7);
    assert Transform(p)[0] == Round(Dot(Basis(0), ColOf(RowPass(p), 0)), 32);
  }

  // ----- distance from the exact transform

  function Reals(v: Vec8): C.Reals8 {
    C.Reals8(v.v0 as real, v.v1 as real, v.v2 as real, v.v3 as real,
             v.v4 as real, v.v5 as real, v.v6 as real, v.v7 as real)
  }

  function Abs(x: real): real { if x < 0.0 then -x else x }

  function Differs(b: C.Reals8, g: C.Reals8): C.Reals8 {
    C.Reals8(b.r0 - g.r0, b.r1 - g.r1, b.r2 - g.r2, b.r3 - g.r3, b.r4 - g.r4, b.r5 - g.r5, b.r6 - g.r6, b.r7 - g.r7)
  }

  function Norm1(d: C.Reals8): real {
    Abs(d.r0) + Abs(d.r1) + Abs(d.r2) + Abs(d.r3) + Abs(d.r4) + Abs(d.r5) + Abs(d.r6) + Abs(d.r7)
  }

  /** How far a row of the integer matrix is from 8192 times the exact one, all entries together. */
  function Gap(b: Vec8, g: C.Reals8): real {
    Abs(b.v0 as real - 8192.0 * g.r0) + Abs(b.v1 as real - 8192.0 * g.r1)
    + Abs(b.v2 as real - 8192.0 * g.r2) + Abs(b.v3 as real - 8192.0 * g.r3)
    + Abs(b.v4 as real - 8192.0 * g.r4) + Abs(b.v5 as real - 8192.0 * g.r5)
    + Abs(b.v6 as real - 8192.0 * g.r6) + Abs(b.v7 as real - 8192.0 * g.r7)
  }

  ghost predicate AllSmall(g: C.Reals8) {
    && Abs(g.r0) <= 1.4 && Abs(g.r1) <= 1.4 && Abs(g.r2) <= 1.4 && Abs(g.r3) <= 1.4
    && Abs(g.r4) <= 1.4 && Abs(g.r5) <= 1.4 && Abs(g.r6) <= 1.4 && Abs(g.r7) <= 1.4
  }

  predicate Scaled(u: nat) { u != 0 && u != 4 }

  ghost predicate Near(x: real, y: real) { y - 0.00001 <= x <= y + 0.00001 }

  /** The roots are 1 and sqrt 2 times the cosines. */
  ghost predicate AreRoots(r: C.Reals8) {
    && r.r0 == 1.0 && Near(r.r1, 1.387040) && Near(r.r2, 1.306563) && Near(r.r3, 1.175876)
    && r.r4 == 1.0 && Near(r.r5, 0.785695) && Near(r.r6, 0.541196) && Near(r.r7, 0.275899)
  }

  lemma FoldingSmall(r: C.Reals8, u: nat)
    requires u < 8 && AreRoots(r)
    ensures AllSmall(C.Folding(r, u))
  {
  }

  /** Rows 0 and 4 of the integer matrix are exact; each other row is off by at most 6 in all. */
  lemma FoldingClose(r: C.Reals8, u: nat)
    requires u < 8 && AreRoots(r)
    ensures if Scaled(u) then Gap(Basis(u), C.Folding(r, u)) <= 6.0 else C.Folding(r, u) == Reals(Basis(u))
  {
  }

  lemma DotReals(b: Vec8, s: Vec8)
    ensures C.Inner(Reals(b), Reals(s)) == Dot(b, s) as real
  {
  }

  /** An entry off by d, times a sample of at most m. */
  lemma ProductOff(d: real, x: real, m: real)
    requires -m <= x <= m
    ensures -C.Product(m, Abs(d)) <= C.Product(d, x) <= C.Product(m, Abs(d))
  {
    if d < 0.0 {
      assert d * m <= d * x <= d * -m;
    } else {
      assert d * -m <= d * x <= d * m;
    }
  }

  ghost predicate AllWithin(x: C.Reals8, m: real) {
    && -m <= x.r0 <= m && -m <= x.r1 <= m && -m <= x.r2 <= m && -m <= x.r3 <= m
    && -m <= x.r4 <= m && -m <= x.r5 <= m && -m <= x.r6 <= m && -m <= x.r7 <= m
  }

  lemma InnerOff(d: C.Reals8, x: C.Reals8, m: real)
    requires AllWithin(x, m)
    ensures -C.Product(m, Norm1(d)) <= C.Inner(d, x) <= C.Product(m, Norm1(d))
  {
    hide Abs, C.Product;
    ProductOff(d.r0, x.r0, m);
    ProductOff(d.r1, x.r1, m);
    ProductOff(d.r2, x.r2, m);
    ProductOff(d.r3, x.r3, m);
    ProductOff(d.r4, x.r4, m);
    ProductOff(d.r5, x.r5, m);
    ProductOff(d.r6, x.r6, m);
    ProductOff(d.r7, x.r7, m);
    C.Spread(m, Abs(d.r0), Abs(d.r1), Abs(d.r2), Abs(d.r3), Abs(d.r4), Abs(d.r5), Abs(d.r6), Abs(d.r7));
  }

  lemma InnerDiffers(b: C.Reals8, g: C.Reals8, x: C.Reals8)
    ensures C.Inner(Differs(b, g), x) == C.Inner(b, x) - C.Inner(g, x)
  {
  }

  lemma GapDiffers(b: Vec8, g: C.Reals8)
    ensures Norm1(Differs(Reals(b), C.Times(8192.0, g))) == Gap(b, g)
  {
    hide Abs;
  }

  /** What the error of a matrix row does to its product with eight values of at most m. */
  lemma DotOff(b: Vec8, g: C.Reals8, s: Vec8, m: real)
    requires Gap(b, g) <= 6.0 && AllWithin(Reals(s), m) && m >= 0.0
    ensures -6.0 * m <= Dot(b, s) as real - 8192.0 * C.Inner(g, Reals(s)) <= 6.0 * m
  {
    hide Dot, Gap, Reals, Differs, AllWithin, Norm1, C.Inner, C.Times;
    var d := Differs(Reals(b), C.Times(8192.0, g));
    DotReals(b, s);
    GapDiffers(b, g);
    InnerDiffers(Reals(b), C.Times(8192.0, g), Reals(s));
    C.InnerFactor(8192.0, g, Reals(s));
    InnerOff(d, Reals(s), m);
    assert C.Product(m, Norm1(d)) <= 6.0 * m;
  }

  /** What errors of at most 7/8 in eight values do to their product with a matrix row. */
  lemma ValuesOff(g: C.Reals8, x: C.Reals8, y: C.Reals8)
    requires AllSmall(g) && AllWithin(Differs(x, y), 0.875)
    ensures -9.8 <= C.Inner(g, x) - C.Inner(g, y) <= 9.8
  {
    hide Differs, AllWithin, C.Inner;
    InnerOff(g, Differs(x, y), 0.875);
    InnerDiffers(x, y, g);
    C.InnerSwaps(x, g);
    C.InnerSwaps(y, g);
    C.InnerSwaps(Differs(x, y), g);
  }

  lemma RowAt(s: Vec8, u: nat)
    requires u < 8
    ensures Get(RowScale(Exact(s)), u) == (
      var d := Dot(Basis(u), s);
      if Scaled(u) then Round(d, 2048) else 4 * d)
  {
    hide Dot, Basis, Round;
  }

  lemma ColAt(s: Vec8, v: nat)
    requires v < 8
    ensures Get(ColScale(Exact(s)), v) == Round(Dot(Basis(v), s), if Scaled(v) then 262144 else 32)
  {
    hide Dot, Basis, Round;
  }

  /** The row pass leaves four times the exact sums, off by at most 7/8. */
  lemma RowNear(r: C.Reals8, s: Vec8, u: nat)
    requires AreRoots(r) && Bounded(s, -128, 127) && u < 8
    ensures -0.875 <= Get(RowScale(Exact(s)), u) as real - 4.0 * C.Inner(C.Folding(r, u), Reals(s)) <= 0.875
  {
    hide AreRoots, C.Folding, C.Inner, Get, RowScale, Exact, Dot, Basis, Gap;
    FoldingClose(r, u);
    RowAt(s, u);
    if Scaled(u) {
      DotOff(Basis(u), C.Folding(r, u), s, 128.0);
    } else {
      DotReals(Basis(u), s);
    }
  }

  /** The column pass of values that are four times t, off by at most 7/8. */
  lemma ColNear(r: C.Reals8, s: Vec8, t: C.Reals8, v: nat)
    requires AreRoots(r) && v < 8 && AllWithin(Reals(s), 4096.0)
    requires AllWithin(Differs(Reals(s), C.Times(4.0, t)), 0.875)
    ensures -1.0 < Get(ColScale(Exact(s)), v) as real - C.Inner(C.Folding(r, v), t) / 8.0 < 1.0
  {
    hide AreRoots, C.Folding, C.Inner, Get, ColScale, Exact, Dot, Basis, Gap, AllSmall, AllWithin, Differs, Reals,
      C.Times;
    FoldingSmall(r, v);
    FoldingClose(r, v);
    ColAt(s, v);
    ValuesOff(C.Folding(r, v), Reals(s), C.Times(4.0, t));
    C.InnerFactor(4.0, t, C.Folding(r, v));
    C.InnerSwaps(t, C.Folding(r, v));
    if Scaled(v) {
      DotOff(Basis(v), C.Folding(r, v), s, 4096.0);
    } else {
      DotReals(Basis(v), s);
    }
  }

  lemma ColumnValues(p: Samples, u: nat)
    requires u < 8
    ensures ColOf(RowPass(p), u) == Vec8(
      Get(RowScale(Exact(RowOf(p, 0))), u), Get(RowScale(Exact(RowOf(p, 1))), u),
      Get(RowScale(Exact(RowOf(p, 2))), u), Get(RowScale(Exact(RowOf(p, 3))), u),
      Get(RowScale(Exact(RowOf(p, 4))), u), Get(RowScale(Exact(RowOf(p, 5))), u),
      Get(RowScale(Exact(RowOf(p, 6))), u), Get(RowScale(Exact(RowOf(p, 7))), u))
  {
    hide Get, RowScale, Exact;
    RowPlace(0, u);
    RowPlace(1, u);
    RowPlace(2, u);
    RowPlace(3, u);
    RowPlace(4, u);
    RowPlace(5, u);
    RowPlace(6, u);
    RowPlace(7, u);
  }

  lemma RowPlace(y: nat, u: nat)
    requires y < 8 && u < 8
    ensures (8 * y + u) / 8 == y && (8 * y + u) % 8 == u
  {
  }

  lemma RowSumNear(r: C.Reals8, p: Samples, y: nat, u: nat)
    requires AreRoots(r) && InByteRange(p) && y < 8 && u < 8
    ensures -0.875 <= Get(RowScale(Exact(RowOf(p, y))), u) as real
                      - C.Product(4.0, C.Inner(C.Folding(r, u), C.RealRow(p, y))) <= 0.875
  {
    hide AreRoots, C.Folding, C.Inner, Get, RowScale, Exact;
    RowNear(r, RowOf(p, y), u);
  }

  /** With any numbers that are 1 and sqrt 2 times the cosines of the first quarter to five places, an eighth
      of the product of p with their matrix on both sides is less than one from every output. */
  lemma TransformNear(r: C.Reals8, p: Samples, u: nat, v: nat)
    requires AreRoots(r) && InByteRange(p) && u < 8 && v < 8
    ensures -1.0 < Transform(p)[8 * v + u] as real - C.TwoSided(C.Folding(r, v), p, C.Folding(r, u)) / 8.0 < 1.0
  {
    hide AreRoots, C.Folding, C.Inner, C.Product, Get, ColScale, RowScale, Exact, RowPass, RowOf, ColOf, C.RealRow,
      InByteRange;
    var t := C.RowProducts(C.Folding(r, u), p);
    RowSumNear(r, p, 0, u);
    RowSumNear(r, p, 1, u);
    RowSumNear(r, p, 2, u);
    RowSumNear(r, p, 3, u);
    RowSumNear(r, p, 4, u);
    RowSumNear(r, p, 5, u);
    RowSumNear(r, p, 6, u);
    RowSumNear(r, p, 7, u);
    ColumnValues(p, u);
    RowPassBounds(p, u);
    ColNear(r, ColOf(RowPass(p), u), t, v);
    RowPlace(v, u);
  }

  /** The cosine's own roots are such numbers. */
  lemma CosineRoots(c: int -> real)
    requires C.IsCosine(c)
    ensures AreRoots(C.Roots(c))
  {
    hide C.IsCosine;
    C.Values(c);
  }

  /** Every coefficient the transform leaves is less than one from the exact coefficient of T.81, section
      A.3.3, of the same horizontal and vertical frequency. */
  lemma TransformIsDct(c: int -> real, p: Samples, u: nat, v: nat)
    requires C.IsCosine(c) && InByteRange(p) && u < 8 && v < 8
    ensures -1.0 < Transform(p)[8 * v + u] as real - C.Coefficient(c, p, u, v) < 1.0
  {
    hide C.IsCosine, AreRoots, C.Matrix, C.Folding, C.Roots, C.TwoSided, C.Coefficient, Transform, InByteRange;
    CosineRoots(c);
    TransformNear(C.Roots(c), p, u, v);
    C.MatrixFolds(c, u);
    C.MatrixFolds(c, v);
    C.CoefficientByMatrix(c, p, u, v);
  }

  lemma AllDct(p: Samples)
    requires InByteRange(p)
    ensures IsDct(p, Transform(p))
  {
    hide C.IsCosine, C.Coefficient, Transform;
    forall c: int -> real, u: nat, v: nat | C.IsCosine(c) && u < 8 && v < 8
      ensures -1.0 < Transform(p)[8 * v + u] as real - C.Coefficient(c, p, u, v) < 1.0
    {
      TransformIsDct(c, p, u, v);
    }
  }

  /** t holds the exact coefficients of p, each to less than one. */
  ghost predicate IsDct(p: Samples, t: Samples) {
    forall c: int -> real, u: nat, v: nat :: C.IsCosine(c) && u < 8 && v < 8 ==>
      -1.0 < t[8 * v + u] as real - C.Coefficient(c, p, u, v) < 1.0
  }

  // ----- the encoder's method

  method WriteRow(p: array<int>, r: nat, f: Vec8)
    requires p.Length == 64 && r < 8
    modifies p
    ensures forall k :: 0 <= k < 64 ==> p[k] == if k / 8 == r then Get(f, k % 8) else old(p[k])
  {
    var q := 8 * r;
    p[q], p[q + 1], p[q + 2], p[q + 3] := f.v0, f.v1, f.v2, f.v3;
    p[q + 4], p[q + 5], p[q + 6], p[q + 7] := f.v4, f.v5, f.v6, f.v7;
  }

  method WriteColumn(p: array<int>, c: nat, f: Vec8)
    requires p.Length == 64 && c < 8
    modifies p
    ensures forall k :: 0 <= k < 64 ==> p[k] == if k % 8 == c then Get(f, k / 8) else old(p[k])
  {
    p[c], p[8 + c], p[16 + c], p[24 + c] := f.v0, f.v1, f.v2, f.v3;
    p[32 + c], p[40 + c], p[48 + c], p[56 + c] := f.v4, f.v5, f.v6, f.v7;
  }

  method RowsPass(p: array<int>)
    requires p.Length == 64 && InByteRange(p[..])
    modifies p
    ensures p[..] == RowPass(old(p[..]))
  {
    hide Exact, RowScale, Butterfly, RowOut, Get;
    ghost var x := p[..];
    for r := 0 to 8
      invariant forall k :: 0 <= k < 64 ==>
        p[k] == if k / 8 < r then Get(RowScale(Exact(RowOf(x, k / 8))), k % 8) else x[k]
    {
      var q := 8 * r;
      var s := Vec8(p[q], p[q + 1], p[q + 2], p[q + 3], p[q + 4], p[q + 5], p[q + 6], p[q + 7]);
      assert s == RowOf(x, r);
      RowExact(s);
      WriteRow(p, r, RowOut(Butterfly(s)));
    }
    assert p[..] == RowPass(x);
  }

  lemma ColumnIndex(c: nat)
    requires c < 8
    ensures c % 8 == (8 + c) % 8 == (16 + c) % 8 == (24 + c) % 8 == c
    ensures (32 + c) % 8 == (40 + c) % 8 == (48 + c) % 8 == (56 + c) % 8 == c
  {
  }

  method ColumnsPass(p: array<int>)
    requires p.Length == 64
    requires forall c :: 0 <= c < 8 ==> Bounded(ColOf(p[..], c), ColLow(c), ColHigh(c))
    modifies p
    ensures p[..] == ColPass(old(p[..]))
  {
    hide Exact, ColScale, Butterfly, ColOut, Get, ColLow, ColHigh, Bounded;
    ghost var y := p[..];
    for c := 0 to 8
      invariant forall k :: 0 <= k < 64 ==>
        p[k] == if k % 8 < c then Get(ColScale(Exact(ColOf(y, k % 8))), k / 8) else y[k]
    {
      ColumnIndex(c);
      var s := Vec8(p[c], p[8 + c], p[16 + c], p[24 + c], p[32 + c], p[40 + c], p[48 + c], p[56 + c]);
      assert s == ColOf(y, c);
      ColExact(s, c);
      WriteColumn(p, c, ColOut(Butterfly(s)));
    }
    assert p[..] == ColPass(y);
  }

  /** In place; equal to the reference transform on every block of 8-bit samples. */
  method DCT2D(p: array<int>)
    requires p.Length == 64 && InByteRange(p[..])
    modifies p
    ensures p[..] == Transform(old(p[..])) && IsDct(old(p[..]), p[..])
  {
    hide RowPass, ColPass;
    ghost var x := p[..];
    RowsPass(p);
    forall c | 0 <= c < 8
      ensures Bounded(ColOf(p[..], c), ColLow(c), ColHigh(c))
    {
      RowPassBounds(x, c);
    }
    ColumnsPass(p);
    AllDct(x);
  }
}
