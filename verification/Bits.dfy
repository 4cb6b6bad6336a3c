/** Bit strings, most significant bit first, and the numbers they denote.

    The encoder packs numbers into bytes and a T.81 decoder reads single bits back; this module
    is the common ground between the two. Shifts are repeated doubling and halving, so that
    reasoning about them stays linear. */
module Bits {
  type byte = x: int | 0 <= x < 256

  type bitstring = seq<bool>

  /** A colour. */
  datatype Rgb = Rgb(r: byte, g: byte, b: byte) {
    predicate Grey() { r == g == b }
  }

  /** v << n, without a width. */
  function Shl(v: nat, n: nat): (r: nat)
    ensures n >= 1 ==> r % 2 == 0
  {
    if n == 0 then v else 2 * Shl(v, n - 1)
  }

  /** v >> n. */
  function Shr(v: nat, n: nat): nat {
    if n == 0 then v else Shr(v / 2, n - 1)
  }

  function Pow2(n: nat): (r: nat)
    ensures r >= 1
  {
    if n == 0 then 1 else 2 * Pow2(n - 1)
  }

  function Bit(b: bool): (r: nat)
    ensures r <= 1
  {
    if b then 1 else 0
  }

  /** The low n bits of v. */
  function ToBits(v: nat, n: nat): (b: bitstring)
    ensures |b| == n
  {
    if n == 0 then [] else ToBits(v / 2, n - 1) + [v % 2 == 1]
  }

  function FromBits(b: bitstring): (v: nat)
    ensures v < Pow2(|b|)
  {
    if b == [] then 0 else 2 * FromBits(b[..|b| - 1]) + Bit(b[|b| - 1])
  }

  // ----- shifts

  lemma {:induction false} ShlOne(n: nat)
    ensures Shl(1, n) == Pow2(n)
  {
    if n > 0 {
      ShlOne(n - 1);
    }
  }

  lemma {:induction false} ShlPlus(a: nat, b: nat, n: nat)
    ensures Shl(a + b, n) == Shl(a, n) + Shl(b, n)
  {
    if n > 0 {
      ShlPlus(a, b, n - 1);
    }
  }

  lemma {:induction false} ShlShl(v: nat, m: nat, n: nat)
    ensures Shl(Shl(v, m), n) == Shl(v, m + n)
  {
    if n > 0 {
      ShlShl(v, m, n - 1);
    }
  }

  lemma {:induction false} ShlMonotone(a: nat, b: nat, n: nat)
    requires a <= b
    ensures Shl(a, n) <= Shl(b, n)
  {
    if n > 0 {
      ShlMonotone(a, b, n - 1);
    }
  }

  lemma {:induction false} ShlStrict(a: nat, b: nat, n: nat)
    ensures a < b <==> Shl(a, n) < Shl(b, n)
  {
    if n > 0 {
      ShlStrict(a, b, n - 1);
    }
  }

  /** Shifting left and shifting right are adjoint. */
  lemma {:induction false} ShrLess(v: nat, q: nat, n: nat)
    ensures Shr(v, n) < q <==> v < Shl(q, n)
  {
    if n > 0 {
      ShrLess(v / 2, q, n - 1);
    }
  }

  lemma ShrFits(v: nat, k: nat, n: nat)
    requires v < Pow2(k + n)
    ensures Shr(v, n) < Pow2(k)
  {
    ShlOne(k);
    ShlOne(k + n);
    ShlShl(1, k, n);
    ShrLess(v, Pow2(k), n);
  }

  lemma ShlFits(v: nat, k: nat, n: nat)
    requires v < Pow2(k)
    ensures Shl(v, n) + Pow2(n) <= Pow2(k + n)
  {
    ShlOne(k);
    ShlOne(n);
    ShlOne(k + n);
    ShlShl(1, k, n);
    ShlPlus(v, 1, n);
    ShlMonotone(v + 1, Pow2(k), n);
  }

  lemma {:induction false} Pow2Monotone(m: nat, n: nat)
    requires m <= n
    ensures Pow2(m) <= Pow2(n)
  {
    if m < n {
      Pow2Monotone(m, n - 1);
    }
  }

  lemma Pow2Values()
    ensures Pow2(1) == 2 && Pow2(4) == 16 && Pow2(8) == 256 && Pow2(10) == 1024 && Pow2(11) == 2048
    ensures Pow2(16) == 65536 && Pow2(24) == 16777216
  {
    assert Pow2(2) == 4 && Pow2(6) == 64 && Pow2(10) == 1024 && Pow2(12) == 4096 && Pow2(14) == 16384;
    assert Pow2(18) == 4 * Pow2(16) && Pow2(20) == 4 * Pow2(18) && Pow2(22) == 4 * Pow2(20);
  }

  // ----- numbers and bit strings

  /** Writing v in n bits and reading it back gives v, as long as it fits. */
  lemma {:induction false} ToFromBits(v: nat, n: nat)
    requires v < Pow2(n)
    ensures FromBits(ToBits(v, n)) == v
  {
    if n > 0 {
      ToFromBits(v / 2, n - 1);
      assert ToBits(v, n)[..n - 1] == ToBits(v / 2, n - 1);
    }
  }

  lemma {:induction false} FromToBits(b: bitstring)
    ensures ToBits(FromBits(b), |b|) == b
  {
    if b != [] {
      FromToBits(b[..|b| - 1]);
    }
  }

  lemma {:induction false} FromBitsConcat(a: bitstring, b: bitstring)
    ensures FromBits(a + b) == Shl(FromBits(a), |b|) + FromBits(b)
  {
    if b == [] {
      assert a + b == a;
    } else {
      var c := b[..|b| - 1];
      FromBitsConcat(a, c);
      assert (a + b)[..|a + b| - 1] == a + c;
    }
  }

  /** The first k bits of v, read as a number, are v with the others shifted out. */
  lemma {:induction false} ToBitsPrefix(v: nat, n: nat, k: nat)
    requires k <= n
    ensures ToBits(v, n)[..k] == ToBits(Shr(v, n - k), k)
    decreases n
  {
    if k < n {
      ToBitsPrefix(v / 2, n - 1, k);
      assert ToBits(v, n)[..k] == ToBits(v / 2, n - 1)[..k];
    }
  }
}
