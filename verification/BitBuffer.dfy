/** The encoder's 32-bit bit accumulator.

    The n pending bits sit just below bit 24; whatever has been shifted above bit 24 is left over
    from bytes already emitted. */
module BitBuffer {
  import opened Bits

  const RANGE := 0x1_0000_0000
  const TOP := 0x100_0000

  /** Bitwise or. */
  function Or(a: nat, b: nat): nat
    decreases a + b
  {
    if a == 0 && b == 0 then 0
    else 2 * Or(a / 2, b / 2) + (if a % 2 == 1 || b % 2 == 1 then 1 else 0)
  }

  ghost predicate Holds(buffer: nat, n: nat, pending: bitstring) {
    buffer < RANGE && n == |pending| <= 24 && buffer % TOP == Shl(FromBits(pending), 24 - n)
  }

  lemma HoldsLength(buffer: nat, n: nat, pending: bitstring)
    requires Holds(buffer, n, pending)
    ensures n == |pending|
  {
  }

  lemma {:induction false} OrZero(a: nat)
    ensures Or(a, 0) == a && Or(0, a) == a
  {
    if a > 0 {
      OrZero(a / 2);
    }
  }

  /** Or of numbers without common bits is addition. */
  lemma {:induction false} OrDisjoint(a: nat, b: nat, n: nat)
    requires b < Pow2(n)
    ensures Or(Shl(a, n), b) == Shl(a, n) + b
  {
    if n == 0 {
      OrZero(a);
    } else {
      var x := Shl(a, n);
      assert x / 2 == Shl(a, n - 1) && x % 2 == 0;
      OrDisjoint(a, b / 2, n - 1);
      if x == 0 && b == 0 {
      } else {
        assert Or(x, b) == 2 * Or(x / 2, b / 2) + (if x % 2 == 1 || b % 2 == 1 then 1 else 0);
      }
    }
  }

  lemma Shl24(v: nat)
    ensures Shl(v, 8) == 256 * v && Shl(v, 16) == 65536 * v && Shl(v, 24) == TOP * v
  {
    hide Shl;
    ShlFour(v, 4);
    ShlFour(v, 8);
    ShlFour(v, 12);
    ShlFour(v, 16);
    ShlFour(v, 20);
    ShlFour(v, 0);
    ShlNone(v);
  }

  lemma ShlNone(v: nat)
    ensures Shl(v, 0) == v
  {
  }

  lemma ShlFour(v: nat, n: nat)
    ensures Shl(v, n + 4) == 16 * Shl(v, n)
  {
    assert Shl(v, n + 2) == 2 * Shl(v, n + 1);
  }

  /** A buffer whose low 24 bits are p << (24 - n) is a multiple of 2^(24 - n). */
  lemma BufferShape(buffer: nat, n: nat, p: nat)
    requires n <= 24 && buffer % TOP == Shl(p, 24 - n)
    ensures buffer == Shl(Shl(buffer / TOP, n) + p, 24 - n)
  {
    hide Shl;
    Shl24(buffer / TOP);
    ShlShl(buffer / TOP, n, 24 - n);
    ShlPlus(Shl(buffer / TOP, n), p, 24 - n);
  }

  /** Adding len bits below the n pending ones. */
  lemma Insert(buffer: nat, n: nat, pending: bitstring, bits: nat, len: nat)
    requires Holds(buffer, n, pending) && n + len <= 24 && bits < Pow2(len)
    ensures Holds(Or(buffer, Shl(bits, 24 - n - len) % RANGE), n + len, pending + ToBits(bits, len))
  {
    hide Shl, FromBits, ToBits, Pow2, Or;
    var m, p := 24 - n - len, FromBits(pending);
    var v := Shl(bits, m);
    ShlFits(bits, len, m);
    ShlFits(p, n, 24 - n);
    BufferShape(buffer, n, p);
    Pow2Values();
    Pow2Monotone(24 - n, 24);
    OrDisjoint(Shl(buffer / TOP, n) + p, v, 24 - n);
    assert Or(buffer, v) == buffer + v;
    FromBitsConcat(pending, ToBits(bits, len));
    ToFromBits(bits, len);
    ShlPlus(Shl(p, len), bits, m);
    ShlShl(p, len, m);
    assert Shl(FromBits(pending + ToBits(bits, len)), m) == Shl(p, 24 - n) + v;
    TopPlus(buffer, v);
  }

  lemma TopPlus(buffer: nat, v: nat)
    requires buffer < RANGE && buffer % TOP + v < TOP
    ensures buffer + v < RANGE && (buffer + v) % TOP == buffer % TOP + v
  {
  }

  /** The byte at bits 16..23 is the oldest pending one; shifting left by 8 drops it. */
  lemma Extract(buffer: nat, n: nat, pending: bitstring)
    requires Holds(buffer, n, pending) && n >= 8
    ensures ToBits((buffer / 65536) % 256, 8) == pending[..8]
    ensures Holds((buffer * 256) % RANGE, n - 8, pending[8..])
  {
    hide Shl, FromBits, ToBits, Pow2;
    var a, b := pending[..8], pending[8..];
    assert a + b == pending;
    FromBitsConcat(a, b);
    ShlPlus(Shl(FromBits(a), n - 8), FromBits(b), 24 - n);
    ShlShl(FromBits(a), n - 8, 24 - n);
    Shl24(FromBits(a));
    var low := Shl(FromBits(b), 24 - n);
    ShlFits(FromBits(b), n - 8, 24 - n);
    Pow2Values();
    assert buffer % TOP == 65536 * FromBits(a) + low && low < 65536;
    Digits(buffer, FromBits(a), low);
    FromToBits(a);
    ShlShl(FromBits(b), 24 - n, 8);
    Shl24(low);
  }

  lemma Digits(buffer: nat, high: nat, low: nat)
    requires buffer < RANGE && buffer % TOP == 65536 * high + low && low < 65536 && high < 256
    ensures (buffer / 65536) % 256 == high
    ensures (buffer * 256) % RANGE % TOP == 256 * low
  {
    var q := buffer / TOP;
    assert buffer == 65536 * (256 * q + high) + low;
    HighPart(256 * q + high, low);
    LowByte(q, high);
    assert buffer * 256 == RANGE * q + (TOP * high + 256 * low);
    BelowRange(q, TOP * high + 256 * low);
    BelowTop(high, 256 * low);
  }

  lemma HighPart(q: nat, r: nat)
    requires r < 65536
    ensures (65536 * q + r) / 65536 == q
  {
  }

  lemma LowByte(q: nat, r: nat)
    requires r < 256
    ensures (256 * q + r) % 256 == r
  {
  }

  lemma BelowRange(q: nat, r: nat)
    requires r < RANGE
    ensures (RANGE * q + r) % RANGE == r
  {
  }

  lemma BelowTop(q: nat, r: nat)
    requires r < TOP
    ensures (TOP * q + r) % TOP == r
  {
  }
}
