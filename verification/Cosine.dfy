/** The forward DCT of T.81, section A.3.3, in exact arithmetic, and the matrix of roots that the encoder
    rounds.

    The cosine is any function on multiples of pi / 16 that obeys the cosine's laws, so what is proved
    here of every such function is proved of the cosine. */
module Cosine {
  ghost predicate AddsUp(c: int -> real, a: int, b: int) {
    c(a + b) + c(a - b) == 2.0 * c(a) * c(b)
  }

  /** c(m) is the cosine of m pi / 16. */
  ghost predicate IsCosine(c: int -> real) {
    && c(0) == 1.0 && c(8) == 0.0 && (forall m :: 0 <= m < 8 ==> c(m) > 0.0)
    && forall a: int, b: int :: AddsUp(c, a, b)
  }

  datatype Reals8 = Reals8(r0: real, r1: real, r2: real, r3: real, r4: real, r5: real, r6: real, r7: real)

  function Inner(a: Reals8, b: Reals8): real {
    Product(a.r0, b.r0) + Product(a.r1, b.r1) + Product(a.r2, b.r2) + Product(a.r3, b.r3)
    + Product(a.r4, b.r4) + Product(a.r5, b.r5) + Product(a.r6, b.r6) + Product(a.r7, b.r7)
  }

  function Product(x: real, y: real): real { x * y }

  /** cos((2x + 1)u pi / 16) for x from 0 to 7. */
  function Wave(c: int -> real, u: nat): Reals8 {
    Reals8(c(u), c(3 * u), c(5 * u), c(7 * u), c(9 * u), c(11 * u), c(13 * u), c(15 * u))
  }

  /** C of A.3.3: 1 / sqrt 2, the cosine of pi / 4, for index 0, and 1 for the others. */
  function Norm(c: int -> real, u: nat): real {
    if u == 0 then c(4) else 1.0
  }

  function RealRow(p: seq<int>, y: nat): Reals8
    requires |p| == 64 && y < 8
  {
    Reals8(p[8 * y] as real, p[8 * y + 1] as real, p[8 * y + 2] as real, p[8 * y + 3] as real,
           p[8 * y + 4] as real, p[8 * y + 5] as real, p[8 * y + 6] as real, p[8 * y + 7] as real)
  }

  /** The product of each of the eight rows with a. */
  function RowProducts(a: Reals8, p: seq<int>): Reals8
    requires |p| == 64
  {
    Reals8(Inner(a, RealRow(p, 0)), Inner(a, RealRow(p, 1)), Inner(a, RealRow(p, 2)), Inner(a, RealRow(p, 3)),
           Inner(a, RealRow(p, 4)), Inner(a, RealRow(p, 5)), Inner(a, RealRow(p, 6)), Inner(a, RealRow(p, 7)))
  }

  /** The coefficient of horizontal frequency u and vertical frequency v of the samples p. */
  function Coefficient(c: int -> real, p: seq<int>, u: nat, v: nat): real
    requires |p| == 64
  {
    Norm(c, u) * Norm(c, v) / 4.0 * Inner(Wave(c, v), RowProducts(Wave(c, u), p))
  }

  // ----- the laws

  lemma Adds(c: int -> real, a: int, b: int)
    requires IsCosine(c)
    ensures c(a + b) + c(a - b) == 2.0 * c(a) * c(b)
  {
    assert AddsUp(c, a, b);
  }

  lemma Mirrors(c: int -> real, a: int)
    requires IsCosine(c)
    ensures c(-a) == c(a) && c(16 - a) == -c(a) && c(16 + a) == -c(a)
  {
    Adds(c, 0, a);
    Adds(c, 8, 8 - a);
    Adds(c, 8, 8 + a);
    assert 8 + (8 - a) == 16 - a && 8 - (8 - a) == a && 8 + (8 + a) == 16 + a && 8 - (8 + a) == -a;
  }

  /** An angle folded into the first quarter: n differs by at most 8 from a multiple of 16. */
  function Folded(c: int -> real, n: nat): real {
    var j := (n + 8) / 16;
    var a := if n < 16 * j then 16 * j - n else n - 16 * j;
    if j % 2 == 0 then c(a) else -c(a)
  }

  lemma Folds(c: int -> real, n: nat)
    requires IsCosine(c)
    ensures c(n) == Folded(c, n)
  {
    hide IsCosine;
    var j := (n + 8) / 16;
    Turns(c, j, n - 16 * j);
    Mirrors(c, n - 16 * j);
  }

  lemma {:induction false} Turns(c: int -> real, j: nat, a: int)
    requires IsCosine(c)
    ensures c(16 * j + a) == if j % 2 == 0 then c(a) else -c(a)
  {
    hide IsCosine;
    if j > 0 {
      Turns(c, j - 1, a);
      Mirrors(c, 16 * (j - 1) + a);
      assert 16 + (16 * (j - 1) + a) == 16 * j + a;
    }
  }

  lemma SquaresOrder(x: real, y: real)
    ensures 0.0 < x < y ==> x * x < y * y
  {
    if 0.0 < x < y {
      assert x * x < x * y < y * y;
    }
  }

  lemma RootBetween(x: real, square: real, low: real, high: real)
    requires x > 0.0 && x * x == square && 0.0 < low && 0.0 < high && low * low <= square <= high * high
    ensures low <= x <= high
  {
    SquaresOrder(x, low);
    SquaresOrder(high, x);
  }

  /** Double angles. */
  lemma Squares(c: int -> real)
    requires IsCosine(c)
    ensures 2.0 * c(4) * c(4) == 1.0 && 2.0 * c(2) * c(2) == 1.0 + c(4) && 2.0 * c(6) * c(6) == 1.0 - c(4)
    ensures 2.0 * c(1) * c(1) == 1.0 + c(2) && 2.0 * c(7) * c(7) == 1.0 - c(2)
    ensures 2.0 * c(3) * c(3) == 1.0 + c(6) && 2.0 * c(5) * c(5) == 1.0 - c(6)
  {
    Adds(c, 4, 4);
    Adds(c, 2, 2);
    Adds(c, 6, 6);
    Adds(c, 1, 1);
    Adds(c, 7, 7);
    Adds(c, 3, 3);
    Adds(c, 5, 5);
    Mirrors(c, 4);
    Mirrors(c, 2);
    Mirrors(c, 6);
  }

  /** The first quarter, to five decimal places. */
  lemma Values(c: int -> real)
    requires IsCosine(c)
    ensures 0.980785 <= c(1) <= 0.980786 && 0.9238795 <= c(2) <= 0.9238796 && 0.831469 <= c(3) <= 0.831470
    ensures 0.70710678 <= c(4) <= 0.70710679 && 0.555570 <= c(5) <= 0.555571
    ensures 0.3826834 <= c(6) <= 0.3826835 && 0.195090 <= c(7) <= 0.195091
  {
    hide IsCosine;
    Squares(c);
    Positive(c);
    RootBetween(c(4), 0.5, 0.70710678, 0.70710679);
    RootBetween(c(2), (1.0 + c(4)) / 2.0, 0.9238795, 0.9238796);
    RootBetween(c(6), (1.0 - c(4)) / 2.0, 0.3826834, 0.3826835);
    RootBetween(c(1), (1.0 + c(2)) / 2.0, 0.980785, 0.980786);
    RootBetween(c(7), (1.0 - c(2)) / 2.0, 0.195090, 0.195091);
    RootBetween(c(3), (1.0 + c(6)) / 2.0, 0.831469, 0.831470);
    RootBetween(c(5), (1.0 - c(6)) / 2.0, 0.555570, 0.555571);
  }

  lemma Positive(c: int -> real)
    requires IsCosine(c)
    ensures c(0) == 1.0 && c(1) > 0.0 && c(2) > 0.0 && c(3) > 0.0
    ensures c(4) > 0.0 && c(5) > 0.0 && c(6) > 0.0 && c(7) > 0.0
  {
  }

  // ----- the matrix the encoder rounds

  /** Row u of the matrix sqrt 2 C cos((2x + 1)u pi / 16). */
  function Matrix(c: int -> real, u: nat): Reals8 {
    Times(2.0 * c(4) * Norm(c, u), Wave(c, u))
  }

  function Times(k: real, a: Reals8): Reals8 {
    Reals8(Product(k, a.r0), Product(k, a.r1), Product(k, a.r2), Product(k, a.r3),
           Product(k, a.r4), Product(k, a.r5), Product(k, a.r6), Product(k, a.r7))
  }

  /** The cosines of a row, by those of the first quarter. */
  function Folding(q: Reals8, u: nat): Reals8
    requires u < 8
  {
    match u
    case 0 => Reals8(q.r0, q.r0, q.r0, q.r0, q.r0, q.r0, q.r0, q.r0)
    case 1 => Reals8(q.r1, q.r3, q.r5, q.r7, -q.r7, -q.r5, -q.r3, -q.r1)
    case 2 => Reals8(q.r2, q.r6, -q.r6, -q.r2, -q.r2, -q.r6, q.r6, q.r2)
    case 3 => Reals8(q.r3, -q.r7, -q.r1, -q.r5, q.r5, q.r1, q.r7, -q.r3)
    case 4 => Reals8(q.r4, -q.r4, -q.r4, q.r4, q.r4, -q.r4, -q.r4, q.r4)
    case 5 => Reals8(q.r5, -q.r1, q.r7, q.r3, -q.r3, -q.r7, q.r1, -q.r5)
    case 6 => Reals8(q.r6, -q.r2, q.r2, -q.r6, -q.r6, q.r2, -q.r2, q.r6)
    case _ => Reals8(q.r7, -q.r5, q.r3, -q.r1, q.r1, -q.r3, q.r5, -q.r7)
  }

  function Quarter(c: int -> real): Reals8 {
    Reals8(c(0), c(1), c(2), c(3), c(4), c(5), c(6), c(7))
  }

  lemma WaveFolds(c: int -> real, u: nat)
    requires IsCosine(c) && u < 8
    ensures Wave(c, u) == Folding(Quarter(c), u)
  {
    hide IsCosine;
    LeftFolds(c, u);
    RightFolds(c, u);
  }

  lemma LeftFolds(c: int -> real, u: nat)
    requires IsCosine(c) && u < 8
    ensures var q := Folding(Quarter(c), u); c(u) == q.r0 && c(3 * u) == q.r1 && c(5 * u) == q.r2 && c(7 * u) == q.r3
  {
    hide IsCosine;
    Folds(c, u);
    Folds(c, 3 * u);
    Folds(c, 5 * u);
    Folds(c, 7 * u);
  }

  lemma RightFolds(c: int -> real, u: nat)
    requires IsCosine(c) && u < 8
    ensures var q := Folding(Quarter(c), u);
      c(9 * u) == q.r4 && c(11 * u) == q.r5 && c(13 * u) == q.r6 && c(15 * u) == q.r7
  {
    hide IsCosine;
    LeftFolds(c, u);
    Reflects(c, u, 7 * u);
    Reflects(c, u, 5 * u);
    Reflects(c, u, 3 * u);
    Reflects(c, u, u);
  }

  lemma Reflects(c: int -> real, u: nat, a: int)
    requires IsCosine(c)
    ensures c(16 * u - a) == if u % 2 == 0 then c(a) else -c(a)
  {
    hide IsCosine;
    Turns(c, u, -a);
    Mirrors(c, a);
    assert 16 * u + (-a) == 16 * u - a;
  }

  /** sqrt 2 times each cosine is a sum of two. */
  lemma Products(c: int -> real)
    requires IsCosine(c)
    ensures 2.0 * c(4) * c(1) == c(3) + c(5) && 2.0 * c(4) * c(2) == c(2) + c(6) && 2.0 * c(4) * c(3) == c(1) + c(7)
    ensures 2.0 * c(4) * c(4) == 1.0
    ensures 2.0 * c(4) * c(5) == c(1) - c(7) && 2.0 * c(4) * c(6) == c(2) - c(6) && 2.0 * c(4) * c(7) == c(3) - c(5)
  {
    hide IsCosine;
    Adds(c, 4, 1);
    Adds(c, 4, 2);
    Adds(c, 4, 3);
    Squares(c);
    Adds(c, 4, 5);
    Adds(c, 4, 6);
    Adds(c, 4, 7);
    Mirrors(c, 1);
    Mirrors(c, 2);
    Mirrors(c, 3);
    Mirrors(c, 5);
    Mirrors(c, 6);
    Mirrors(c, 7);
  }

  /** sqrt 2 times the cosines of the first quarter, but 1 where the matrix has it. */
  function Roots(c: int -> real): Reals8 {
    Reals8(1.0, c(3) + c(5), c(2) + c(6), c(1) + c(7), 1.0, c(1) - c(7), c(2) - c(6), c(3) - c(5))
  }

  lemma MatrixFolds(c: int -> real, u: nat)
    requires IsCosine(c) && u < 8
    ensures Matrix(c, u) == Folding(Roots(c), u)
  {
    hide Wave, Times, Folding;
    WaveFolds(c, u);
    Products(c);
    Positive(c);
    hide IsCosine;
    TimesFolding(2.0 * c(4) * Norm(c, u), Quarter(c), Roots(c), u);
  }

  lemma TimesFolding(k: real, q: Reals8, r: Reals8, u: nat)
    requires u < 8
    requires if u == 0 then Product(k, q.r0) == r.r0
             else
               && Product(k, q.r1) == r.r1 && Product(k, q.r2) == r.r2 && Product(k, q.r3) == r.r3
               && Product(k, q.r4) == r.r4 && Product(k, q.r5) == r.r5 && Product(k, q.r6) == r.r6
               && Product(k, q.r7) == r.r7
    ensures Times(k, Folding(q, u)) == Folding(r, u)
  {
    hide Product;
    Negates(k, q.r1);
    Negates(k, q.r2);
    Negates(k, q.r3);
    Negates(k, q.r4);
    Negates(k, q.r5);
    Negates(k, q.r6);
    Negates(k, q.r7);
  }

  lemma Negates(k: real, x: real)
    ensures Product(k, -x) == -Product(k, x)
  {
  }

  lemma InnerFactor(k: real, a: Reals8, b: Reals8)
    ensures Inner(Times(k, a), b) == Product(k, Inner(a, b)) == Inner(b, Times(k, a))
  {
    Moves(k, a.r0, b.r0);
    Moves(k, a.r1, b.r1);
    Moves(k, a.r2, b.r2);
    Moves(k, a.r3, b.r3);
    Moves(k, a.r4, b.r4);
    Moves(k, a.r5, b.r5);
    Moves(k, a.r6, b.r6);
    Moves(k, a.r7, b.r7);
    Spread(k, Product(a.r0, b.r0), Product(a.r1, b.r1), Product(a.r2, b.r2), Product(a.r3, b.r3),
           Product(a.r4, b.r4), Product(a.r5, b.r5), Product(a.r6, b.r6), Product(a.r7, b.r7));
    hide Product;
  }

  lemma Moves(k: real, x: real, y: real)
    ensures Product(Product(k, x), y) == Product(k, Product(x, y)) == Product(y, Product(k, x))
  {
  }

  lemma Spread(m: real, a0: real, a1: real, a2: real, a3: real, a4: real, a5: real, a6: real, a7: real)
    ensures Product(m, a0 + a1 + a2 + a3 + a4 + a5 + a6 + a7)
         == Product(m, a0) + Product(m, a1) + Product(m, a2) + Product(m, a3)
          + Product(m, a4) + Product(m, a5) + Product(m, a6) + Product(m, a7)
  {
  }

  /** The product with a from the left and b from the right. */
  function TwoSided(a: Reals8, p: seq<int>, b: Reals8): real
    requires |p| == 64
  {
    Inner(a, RowProducts(b, p))
  }

  /** The coefficient is an eighth of the product with the matrix on both sides. */
  lemma CoefficientByMatrix(c: int -> real, p: seq<int>, u: nat, v: nat)
    requires IsCosine(c) && |p| == 64
    ensures Coefficient(c, p, u, v) == TwoSided(Matrix(c, v), p, Matrix(c, u)) / 8.0
  {
    hide IsCosine, Wave, RealRow, Norm, Inner, RowProducts;
    var j, k := 2.0 * c(4) * Norm(c, v), 2.0 * c(4) * Norm(c, u);
    var sums := RowProducts(Wave(c, u), p);
    RowsFactor(k, Wave(c, u), p);
    InnerFactor(j, Wave(c, v), Times(k, sums));
    InnerFactor(k, sums, Wave(c, v));
    Squares(c);
    Twice(c(4), Norm(c, v), Norm(c, u), Inner(Wave(c, v), sums));
    InnerSwaps(Wave(c, v), sums);
  }

  lemma RowsFactor(k: real, a: Reals8, p: seq<int>)
    requires |p| == 64
    ensures RowProducts(Times(k, a), p) == Times(k, RowProducts(a, p))
  {
    hide RealRow, Inner, Product;
    InnerFactor(k, a, RealRow(p, 0));
    InnerFactor(k, a, RealRow(p, 1));
    InnerFactor(k, a, RealRow(p, 2));
    InnerFactor(k, a, RealRow(p, 3));
    InnerFactor(k, a, RealRow(p, 4));
    InnerFactor(k, a, RealRow(p, 5));
    InnerFactor(k, a, RealRow(p, 6));
    InnerFactor(k, a, RealRow(p, 7));
  }

  lemma InnerSwaps(a: Reals8, b: Reals8)
    ensures Inner(a, b) == Inner(b, a)
  {
  }

  lemma Twice(r: real, x: real, y: real, s: real)
    requires 2.0 * r * r == 1.0
    ensures (2.0 * r * x) * ((2.0 * r * y) * s) / 8.0 == y * x / 4.0 * s
  {
    var m := y * x * s;
    assert (2.0 * r * x) * ((2.0 * r * y) * s) == (2.0 * r * r) * (2.0 * m);
    assert (2.0 * r * r) * (2.0 * m) == 2.0 * m;
    assert y * x / 4.0 * s == m / 4.0;
  }
}
