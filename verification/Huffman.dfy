/** Canonical Huffman codes.

    A table is given, as in a DHT segment, by the number of codes of each length 1..16 and the
    symbols in code order (ITU-T T.81, B.2.4.2). The specification functions follow section C.2;
    ComputeHuffmanTable is the encoder's own construction over arrays; Decode is the decoder's
    procedure of section F.2.2.3. */
module Huffman {
  import opened Bits
  import opened Wrappers

  const UINT32_RANGE := 0x1_0000_0000

  datatype Table = Table(counts: seq<nat>, vals: seq<byte>)

  predicate WellFormed(t: Table) {
    |t.counts| == 17 && |t.vals| == Start(t.counts, 17) <= 256
  }

  ghost predicate Distinct(s: seq<byte>) {
    forall i, j :: 0 <= i < j < |s| ==> s[i] != s[j]
  }

  /** Number of codes shorter than l: the index of the first code of length l. */
  function Start(counts: seq<nat>, l: nat): nat
    requires |counts| == 17 && 1 <= l <= 17
  {
    if l == 1 then 0 else Start(counts, l - 1) + counts[l - 1]
  }

  /** The first (numerically smallest) code of length l. */
  function First(counts: seq<nat>, l: nat): nat
    requires |counts| == 17 && 1 <= l <= 17
  {
    if l == 1 then 0 else 2 * (First(counts, l - 1) + counts[l - 1])
  }

  /** Length of the code with index p, searching from length l upwards. */
  function LengthFrom(counts: seq<nat>, p: nat, l: nat): (r: nat)
    requires |counts| == 17 && 1 <= l <= 16
    requires Start(counts, l) <= p < Start(counts, 17)
    ensures l <= r <= 16 && Start(counts, r) <= p < Start(counts, r + 1)
    decreases 17 - l
  {
    if p < Start(counts, l + 1) then l else LengthFrom(counts, p, l + 1)
  }

  function LengthOf(counts: seq<nat>, p: nat): (r: nat)
    requires |counts| == 17 && p < Start(counts, 17)
    ensures 1 <= r <= 16 && Start(counts, r) <= p < Start(counts, r + 1)
  {
    LengthFrom(counts, p, 1)
  }

  function CodeOf(counts: seq<nat>, p: nat): nat
    requires |counts| == 17 && p < Start(counts, 17)
  {
    var l := LengthOf(counts, p);
    First(counts, l) + p - Start(counts, l)
  }

  /** The code word with index p, as bits. */
  function Word(t: Table, p: nat): (w: bitstring)
    requires WellFormed(t) && p < |t.vals|
    ensures |w| == LengthOf(t.counts, p)
  {
    ToBits(CodeOf(t.counts, p), LengthOf(t.counts, p))
  }

  /** Kraft sum of the codes shorter than l, in units of 2^-16. */
  function Kraft(counts: seq<nat>, l: nat): nat
    requires |counts| == 17 && 1 <= l <= 17
  {
    if l == 1 then 0 else Kraft(counts, l - 1) + Shl(counts[l - 1], 17 - l)
  }

  ghost predicate Strict(t: Table) {
    WellFormed(t) && Kraft(t.counts, 17) < Pow2(16)
  }

  // ----- order of starts and first codes

  lemma {:induction false} StartMonotone(counts: seq<nat>, l: nat, m: nat)
    requires |counts| == 17 && 1 <= l <= m <= 17
    ensures Start(counts, l) <= Start(counts, m)
  {
    if l < m {
      StartMonotone(counts, l, m - 1);
    }
  }

  lemma LengthUnique(counts: seq<nat>, p: nat, l: nat)
    requires |counts| == 17 && 1 <= l <= 16
    requires Start(counts, l) <= p < Start(counts, l + 1)
    ensures p < Start(counts, 17) && LengthOf(counts, p) == l
  {
    StartMonotone(counts, l + 1, 17);
    var r := LengthOf(counts, p);
    if r < l {
      StartMonotone(counts, r + 1, l);
    } else if l < r {
      StartMonotone(counts, l + 1, r);
    }
  }

  lemma LengthAtLeast(counts: seq<nat>, p: nat, l: nat)
    requires |counts| == 17 && 1 <= l <= 16 && Start(counts, l) <= p < Start(counts, 17)
    ensures LengthOf(counts, p) >= l
  {
    var r := LengthOf(counts, p);
    if r < l {
      StartMonotone(counts, r + 1, l);
    }
  }

  /** A code of length m, cut to l < m bits, lies beyond every code of length l. */
  lemma {:induction false} FirstBeyond(counts: seq<nat>, l: nat, m: nat)
    requires |counts| == 17 && 1 <= l < m <= 17
    ensures First(counts, m) >= Shl(First(counts, l) + counts[l], m - l)
  {
    if l + 1 == m {
      assert Shl(First(counts, l) + counts[l], 1) == 2 * Shl(First(counts, l) + counts[l], 0);
    } else {
      FirstBeyond(counts, l, m - 1);
    }
  }

  lemma CodeBeyond(counts: seq<nat>, p: nat, l: nat)
    requires |counts| == 17 && p < Start(counts, 17) && 1 <= l < LengthOf(counts, p)
    ensures Shr(CodeOf(counts, p), LengthOf(counts, p) - l) >= First(counts, l) + counts[l]
  {
    hide Shl, Shr, First, Start;
    var m := LengthOf(counts, p);
    FirstBeyond(counts, l, m);
    ShrLess(CodeOf(counts, p), First(counts, l) + counts[l], m - l);
  }

  // ----- the Kraft inequality makes codes fit their lengths

  lemma {:induction false} KraftFirst(counts: seq<nat>, l: nat)
    requires |counts| == 17 && 1 <= l <= 16
    ensures Shl(First(counts, l), 16 - l) == Kraft(counts, l)
    ensures Shl(First(counts, l) + counts[l], 16 - l) == Kraft(counts, l + 1)
  {
    hide Pow2;
    ShlPlus(First(counts, l), counts[l], 16 - l);
    if l > 1 {
      KraftFirst(counts, l - 1);
      ShlShl(First(counts, l - 1) + counts[l - 1], 1, 16 - l);
      assert Shl(First(counts, l - 1) + counts[l - 1], 1) == First(counts, l) by {
        assert Shl(First(counts, l - 1) + counts[l - 1], 0) == First(counts, l - 1) + counts[l - 1];
      }
    } else {
      ShlZero(15);
    }
  }

  lemma {:induction false} ShlZero(n: nat)
    ensures Shl(0, n) == 0
  {
    if n > 0 {
      ShlZero(n - 1);
    }
  }

  lemma {:induction false} KraftMonotone(counts: seq<nat>, l: nat)
    requires |counts| == 17 && 1 <= l <= 17
    ensures Kraft(counts, l) <= Kraft(counts, 17)
    decreases 17 - l
  {
    if l < 17 {
      KraftMonotone(counts, l + 1);
    }
  }

  /** Every code is below the all-ones word of its own length. */
  lemma CodeBelowOnes(t: Table, p: nat)
    requires Strict(t) && p < |t.vals|
    ensures CodeOf(t.counts, p) < Pow2(LengthOf(t.counts, p)) - 1
  {
    hide Kraft, Pow2, Shl, First, LengthFrom;
    var l := LengthOf(t.counts, p);
    KraftFirst(t.counts, l);
    KraftMonotone(t.counts, l + 1);
    ShlOne(l);
    ShlOne(16);
    ShlShl(1, l, 16 - l);
    ShlStrict(First(t.counts, l) + t.counts[l], Pow2(l), 16 - l);
  }

  /** The encoder's 32-bit counter never wraps, whatever the counts. */
  lemma {:induction false} FirstBounded(counts: seq<nat>, l: nat)
    requires |counts| == 17 && 1 <= l <= 17
    ensures First(counts, l) <= Shl(Start(counts, l), l)
  {
    if l > 1 {
      FirstBounded(counts, l - 1);
      ShlPlus(Start(counts, l - 1), counts[l - 1], l - 1);
      ShlAtLeast(counts[l - 1], l - 1);
    } else {
      ShlZero(1);
    }
  }

  lemma {:induction false} ShlAtLeast(v: nat, n: nat)
    ensures Shl(v, n) >= v
  {
    if n > 0 {
      ShlAtLeast(v, n - 1);
    }
  }

  lemma CodeNoWrap(counts: seq<nat>, l: nat)
    requires |counts| == 17 && 1 <= l <= 16 && Start(counts, 17) <= 256
    ensures 2 * (First(counts, l) + counts[l]) < UINT32_RANGE
  {
    FirstBounded(counts, l + 1);
    StartMonotone(counts, l + 1, 17);
    ShlMonotone(Start(counts, l + 1), 256, l + 1);
    ShlShl(256, l + 1, 16 - l);
    ShlAtLeast(Shl(256, l + 1), 16 - l);
    Shl256();
  }

  lemma Shl256()
    ensures Shl(256, 17) == 33554432
  {
    assert Shl(256, 4) == 4096;
    assert Shl(256, 8) == 65536;
    assert Shl(256, 12) == 1048576;
    assert Shl(256, 16) == 16777216;
  }

  // ----- prefix freedom (T.81 section C.2)

  /** What a reader holds after l bits of a code word: a number beyond all codes of length l,
      until the whole word has been read. */
  lemma WordPrefix(t: Table, p: nat, l: nat)
    requires Strict(t) && p < |t.vals| && 1 <= l <= LengthOf(t.counts, p)
    ensures l < |Word(t, p)| ==> FromBits(Word(t, p)[..l]) >= First(t.counts, l) + t.counts[l]
    ensures l == |Word(t, p)| ==> FromBits(Word(t, p)[..l]) == First(t.counts, l) + p - Start(t.counts, l)
    ensures l == |Word(t, p)| ==> Start(t.counts, l) <= p < Start(t.counts, l) + t.counts[l]
  {
    hide Shl, Shr, Pow2, ToBits, FromBits, First, Kraft;
    var m, c := LengthOf(t.counts, p), CodeOf(t.counts, p);
    CodeBelowOnes(t, p);
    PrefixValue(c, m, l);
    if l < m {
      CodeBeyond(t.counts, p, l);
    } else {
      assert Word(t, p)[..m] == Word(t, p);
      ToFromBits(c, m);
    }
  }

  lemma PrefixValue(c: nat, m: nat, l: nat)
    requires l <= m && c < Pow2(m)
    ensures FromBits(ToBits(c, m)[..l]) == Shr(c, m - l)
  {
    ToBitsPrefix(c, m, l);
    ShrFits(c, l, m - l);
    ToFromBits(Shr(c, m - l), l);
  }

  /** No code word is a prefix of another. */
  lemma PrefixFree(t: Table, p: nat, r: nat)
    requires Strict(t) && p < |t.vals| && r < |t.vals| && p != r
    ensures !(Word(t, p) <= Word(t, r))
  {
    var a, b := Word(t, p), Word(t, r);
    if a <= b {
      assert a[..|a|] == b[..|a|];
      WordPrefix(t, p, |a|);
      WordPrefix(t, r, |a|);
    }
  }

  /** The all-ones word of a code's length is never used. */
  lemma NotAllOnes(t: Table, p: nat)
    requires Strict(t) && p < |t.vals|
    ensures exists i :: 0 <= i < |Word(t, p)| && !Word(t, p)[i]
  {
    CodeBelowOnes(t, p);
    var w := Word(t, p);
    ToFromBits(CodeOf(t.counts, p), |w|);
    if forall i :: 0 <= i < |w| ==> w[i] {
      OnesValue(w);
    }
  }

  lemma {:induction false} OnesValue(w: bitstring)
    requires forall i :: 0 <= i < |w| ==> w[i]
    ensures FromBits(w) == Pow2(|w|) - 1
  {
    if w != [] {
      OnesValue(w[..|w| - 1]);
    }
  }

  // ----- the decoder's procedure (T.81 section F.2.2.3)

  /** l bits have been read and form code; MAXCODE(l) is -1 for a length without codes. */
  function Decode(t: Table, bits: bitstring, l: nat, code: nat): Option<(byte, bitstring)>
    requires WellFormed(t) && l <= 16
    decreases 16 - l
  {
    if l > 0 && t.counts[l] > 0 && code <= First(t.counts, l) + t.counts[l] - 1 then
      var j := Start(t.counts, l) + code - First(t.counts, l);
      if 0 <= j < |t.vals| then Some((t.vals[j], bits)) else None
    else if l == 16 || bits == [] then None
    else Decode(t, bits[1..], l + 1, 2 * code + Bit(bits[0]))
  }

  function DecodeSymbol(t: Table, bits: bitstring): Option<(byte, bitstring)>
    requires WellFormed(t)
  {
    Decode(t, bits, 0, 0)
  }

  lemma {:induction false} DecodeWordFrom(t: Table, p: nat, rest: bitstring, l: nat)
    requires Strict(t) && p < |t.vals| && l <= LengthOf(t.counts, p)
    ensures Decode(t, Word(t, p)[l..] + rest, l, FromBits(Word(t, p)[..l])) == Some((t.vals[p], rest))
    decreases LengthOf(t.counts, p) - l
  {
    hide LengthOf, CodeOf, Word, FromBits, First, Start, Kraft, Decode;
    var w := Word(t, p);
    if l > 0 {
      WordPrefix(t, p, l);
    }
    var v := FromBits(w[..l]);
    if l == |w| {
      DecodeHit(t, rest, l, v);
      assert w[l..] + rest == rest;
    } else {
      var bits := w[l..] + rest;
      DecodeStep(t, bits, l, v);
      assert bits[1..] == w[l + 1..] + rest;
      AppendBit(w, l);
      DecodeWordFrom(t, p, rest, l + 1);
    }
  }

  lemma DecodeHit(t: Table, bits: bitstring, l: nat, code: nat)
    requires WellFormed(t) && 1 <= l <= 16
    requires First(t.counts, l) <= code < First(t.counts, l) + t.counts[l]
    requires Start(t.counts, l) + code - First(t.counts, l) < |t.vals|
    ensures Decode(t, bits, l, code) == Some((t.vals[Start(t.counts, l) + code - First(t.counts, l)], bits))
  {
  }

  lemma DecodeStep(t: Table, bits: bitstring, l: nat, code: nat)
    requires WellFormed(t) && l < 16 && bits != []
    requires l > 0 ==> code >= First(t.counts, l) + t.counts[l]
    ensures Decode(t, bits, l, code) == Decode(t, bits[1..], l + 1, 2 * code + Bit(bits[0]))
  {
  }

  lemma AppendBit(w: bitstring, l: nat)
    requires l < |w|
    ensures FromBits(w[..l + 1]) == 2 * FromBits(w[..l]) + Bit(w[l])
  {
    assert w[..l + 1][..l] == w[..l];
  }

  /** Reading a code word gives back its symbol and leaves what follows it. */
  lemma DecodeWord(t: Table, p: nat, rest: bitstring)
    requires Strict(t) && p < |t.vals|
    ensures DecodeSymbol(t, Word(t, p) + rest) == Some((t.vals[p], rest))
  {
    DecodeWordFrom(t, p, rest, 0);
    assert Word(t, p)[0..] == Word(t, p);
  }

  // ----- the encoder's lookup tables

  /** The last index holding v, or -1. */
  function LastIndex(vals: seq<byte>, v: byte): (r: int)
    ensures -1 <= r < |vals|
    ensures r >= 0 ==> vals[r] == v
    ensures r == -1 <==> v !in vals
  {
    if vals == [] then -1
    else if vals[|vals| - 1] == v then |vals| - 1
    else LastIndex(vals[..|vals| - 1], v)
  }

  lemma {:induction false} LastIndexDistinct(vals: seq<byte>, p: nat)
    requires Distinct(vals) && p < |vals|
    ensures LastIndex(vals, vals[p]) == p
  {
    if p < |vals| - 1 {
      assert vals[p] != vals[|vals| - 1] && vals[p] == vals[..|vals| - 1][p];
      LastIndexDistinct(vals[..|vals| - 1], p);
    }
  }

  function Elements(s: seq<byte>): set<byte> {
    set v | v in s
  }

  lemma {:induction false} ElementsBound(s: seq<byte>)
    ensures |Elements(s)| <= |s|
  {
    if s != [] {
      var t := s[..|s| - 1];
      ElementsBound(t);
      assert s == t + [s[|s| - 1]];
      assert Elements(s) == Elements(t) + {s[|s| - 1]};
    }
  }

  /** A list with as many elements as places holds each of them once. */
  lemma {:induction false} AsManyElements(s: seq<byte>)
    requires |Elements(s)| >= |s|
    ensures Distinct(s)
  {
    if s != [] {
      var t := s[..|s| - 1];
      assert s == t + [s[|s| - 1]];
      assert Elements(s) == Elements(t) + {s[|s| - 1]};
      ElementsBound(t);
      assert s[|s| - 1] !in Elements(t);
      AsManyElements(t);
    }
  }

  /** Code and code size stored for symbol v once the symbols of vals are: (0, 0) when v has none. */
  function EntryOf(counts: seq<nat>, vals: seq<byte>, v: byte): (nat, nat)
    requires |counts| == 17 && |vals| <= Start(counts, 17)
  {
    var p := LastIndex(vals, v);
    if p < 0 then (0, 0) else (CodeOf(counts, p), LengthOf(counts, p))
  }

  function Lookup(t: Table, v: byte): (nat, nat)
    requires WellFormed(t)
  {
    EntryOf(t.counts, t.vals, v)
  }

  /** Where no symbol is listed twice, each one has the code of its own place in the list. */
  lemma LookupOwn(t: Table, p: nat)
    requires WellFormed(t) && Distinct(t.vals) && p < |t.vals|
    ensures Lookup(t, t.vals[p]) == (CodeOf(t.counts, p), LengthOf(t.counts, p))
  {
    LastIndexDistinct(t.vals, p);
  }

  /** What the encoder's arrays must hold for table t. */
  ghost predicate Implements(t: Table, codes: seq<nat>, sizes: seq<nat>) {
    && WellFormed(t) && |codes| == |sizes| == 256
    && forall v: byte :: (codes[v], sizes[v]) == Lookup(t, v)
  }

  /** Sets huffSize[p] to the length of code p and ends the list with 0. */
  method FillSizes(huffSize: array<nat>, bits: array<nat>) returns (lastP: nat)
    requires huffSize.Length == 257 && bits.Length == 17 && bits != huffSize
    requires Start(bits[..], 17) <= 256
    modifies huffSize
    ensures lastP == Start(bits[..], 17) && huffSize[lastP] == 0
    ensures forall k :: 0 <= k < lastP ==> huffSize[k] == LengthOf(bits[..], k)
  {
    ghost var counts := bits[..];
    var p := 0;
    for l := 1 to 17
      invariant bits[..] == counts
      invariant p == Start(counts, l)
      invariant p <= Start(counts, 17)
      invariant forall k :: 0 <= k < p ==> huffSize[k] == LengthOf(counts, k)
    {
      StartMonotone(counts, l + 1, 17);
      assert bits[l] == counts[l];
      for i := 0 to bits[l]
        invariant bits[..] == counts
        invariant p == Start(counts, l) + i
        invariant p <= Start(counts, 17)
        invariant forall k :: 0 <= k < p ==> huffSize[k] == LengthOf(counts, k)
      {
        LengthUnique(counts, p, l);
        huffSize[p] := l;
        p := p + 1;
      }
    }
    huffSize[p] := 0;
    lastP := p;
  }

  /** Numbers the codes: consecutive within a length, doubled from one length to the next. */
  method NumberCodes(huffCode: array<nat>, huffSize: array<nat>, ghost counts: seq<nat>, lastP: nat)
    requires huffCode.Length == 257 && huffSize.Length == 257 && huffCode != huffSize
    requires |counts| == 17 && lastP == Start(counts, 17) <= 256 && huffSize[lastP] == 0
    requires forall k :: 0 <= k < lastP ==> huffSize[k] == LengthOf(counts, k)
    modifies huffCode
    ensures forall k :: 0 <= k < lastP ==> huffCode[k] == CodeOf(counts, k)
  {
    hide LengthFrom, First, Start;
    var code, si, p := 0, huffSize[0], 0;
    StartCode(counts);
    while huffSize[p] != 0
      invariant p <= lastP
      invariant p < lastP ==> 1 <= si <= LengthOf(counts, p) && p == Start(counts, si) && code == First(counts, si)
      invariant forall k :: 0 <= k < p ==> huffCode[k] == CodeOf(counts, k)
      decreases 17 - si
    {
      ghost var start := p;
      NextLength(counts, si);
      while huffSize[p] == si
        invariant start == Start(counts, si) <= p <= Start(counts, si + 1) <= lastP
        invariant code == First(counts, si) + p - start
        invariant forall k :: 0 <= k < p ==> huffCode[k] == CodeOf(counts, k)
        decreases lastP - p
      {
        huffCode[p] := code;
        p := p + 1;
        code := (code + 1) % UINT32_RANGE;
      }
      code := (code * 2) % UINT32_RANGE;
      si := si + 1;
    }
  }

  /** The first length in use starts at code 0. */
  lemma StartCode(counts: seq<nat>)
    requires |counts| == 17
    ensures Start(counts, 17) > 0 ==>
              var l := LengthOf(counts, 0); Start(counts, l) == 0 && First(counts, l) == 0
  {
    if Start(counts, 17) > 0 {
      FirstZero(counts, LengthOf(counts, 0));
    }
  }

  /** Numbering the codes of length l neither wraps the 32-bit counter nor runs into other lengths. */
  lemma NextLength(counts: seq<nat>, l: nat)
    requires |counts| == 17 && 1 <= l <= 16 && Start(counts, 17) <= 256
    ensures Start(counts, l) <= Start(counts, l + 1) <= Start(counts, 17)
    ensures forall k :: Start(counts, l) <= k < Start(counts, l + 1) ==> LengthOf(counts, k) == l
    ensures forall k :: Start(counts, l + 1) <= k < Start(counts, 17) ==> LengthOf(counts, k) > l
    ensures 2 * (First(counts, l) + (Start(counts, l + 1) - Start(counts, l))) < UINT32_RANGE
    ensures l < 16 ==> First(counts, l + 1) == 2 * (First(counts, l) + (Start(counts, l + 1) - Start(counts, l)))
  {
    CodeNoWrap(counts, l);
    StartMonotone(counts, l, l + 1);
    StartMonotone(counts, l + 1, 17);
    forall k | Start(counts, l) <= k < Start(counts, l + 1)
      ensures LengthOf(counts, k) == l
    {
      LengthUnique(counts, k, l);
    }
    forall k | Start(counts, l + 1) <= k < Start(counts, 17)
      ensures LengthOf(counts, k) > l
    {
      if l < 16 {
        LengthAtLeast(counts, k, l + 1);
      }
    }
  }

  lemma {:induction false} FirstZero(counts: seq<nat>, l: nat)
    requires |counts| == 17 && 1 <= l <= 17 && Start(counts, l) == 0
    ensures First(counts, l) == 0
  {
    if l > 1 {
      FirstZero(counts, l - 1);
    }
  }

  /** Builds the lookup arrays for any counts of at most 256 codes in all. */
  method ComputeHuffmanTable(codes: array<nat>, sizes: array<nat>, bits: array<nat>, val: array<byte>)
    requires codes.Length == sizes.Length == val.Length == 256 && bits.Length == 17
    requires codes != sizes && bits != codes && bits != sizes
    requires Start(bits[..], 17) <= 256
    modifies codes, sizes
    ensures Implements(Table(bits[..], val[..Start(bits[..], 17)]), codes[..], sizes[..])
  {
    hide LengthOf, CodeOf, Start, LastIndex, EntryOf;
    var huffSize, huffCode := new nat[257], new nat[257];
    var lastP := FillSizes(huffSize, bits);
    NumberCodes(huffCode, huffSize, bits[..], lastP);

    ghost var counts, vals := bits[..], val[..lastP];
    for v := 0 to 256
      invariant bits[..] == counts && val[..lastP] == vals
      invariant forall k :: 0 <= k < lastP ==> (huffCode[k], huffSize[k]) == (CodeOf(counts, k), LengthOf(counts, k))
      invariant forall u :: 0 <= u < v ==> codes[u] == 0 && sizes[u] == 0
    {
      codes[v], sizes[v] := 0, 0;
    }
    forall v: byte
      ensures EntryOf(counts, vals[..0], v) == (0, 0)
    {
      NothingStored(counts, vals[..0], v);
    }
    for p := 0 to lastP
      invariant bits[..] == counts && val[..lastP] == vals
      invariant forall k :: 0 <= k < lastP ==> (huffCode[k], huffSize[k]) == (CodeOf(counts, k), LengthOf(counts, k))
      invariant forall v: byte :: (codes[v], sizes[v]) == EntryOf(counts, vals[..p], v)
    {
      var symbol := val[p];
      assert symbol == vals[p];
      codes[symbol], sizes[symbol] := huffCode[p], huffSize[p];
      forall v: byte
        ensures (codes[v], sizes[v]) == EntryOf(counts, vals[..p + 1], v)
      {
        EntryStep(counts, vals, p, v);
      }
    }
    assert vals[..lastP] == vals;
  }

  lemma NothingStored(counts: seq<nat>, vals: seq<byte>, v: byte)
    requires |counts| == 17 && vals == []
    ensures EntryOf(counts, vals, v) == (0, 0)
  {
  }

  lemma EntryStep(counts: seq<nat>, vals: seq<byte>, p: nat, v: byte)
    requires |counts| == 17 && p < |vals| <= Start(counts, 17)
    ensures EntryOf(counts, vals[..p + 1], v)
         == if vals[p] == v then (CodeOf(counts, p), LengthOf(counts, p)) else EntryOf(counts, vals[..p], v)
  {
    hide LengthOf, CodeOf;
    assert vals[..p + 1][..p] == vals[..p];
  }
}
