/** Entropy coding of quantised blocks.

    EncodeBlock and EncodeScan say which bits the encoder emits; DecodeBlock and DecodeScan are the
    decoding procedures of ITU-T T.81, sections F.2.2.1 (DC), F.2.2.2 (AC) and F.2.2.3. The main
    theorem, ScanRoundTrip, is that the decoder recovers every block exactly. */
module EntropyCoding {
  import opened Bits
  import opened Wrappers
  import H = Huffman

  /** 64 coefficients in zig-zag order. */
  type Block = b: seq<int> | |b| == 64 witness seq(64, _ => 0)

  /** A block together with the component it belongs to. */
  datatype CodedUnit = CodedUnit(component: nat, block: Block)

  /** The DC and AC tables of one component; a scan has one entry for each of its components. */
  datatype CodeTables = CodeTables(dc: H.Table, ac: H.Table)

  type Tables = seq<CodeTables>

  ghost predicate Ready(tables: Tables) {
    forall c :: 0 <= c < |tables| ==> DcReady(tables[c].dc) && AcReady(tables[c].ac)
  }

  predicate Usable(tables: Tables) {
    forall c :: 0 <= c < |tables| ==> H.WellFormed(tables[c].dc) && H.WellFormed(tables[c].ac)
  }

  /** Every DC category up to 11 has a code. */
  ghost predicate DcReady(t: H.Table) {
    H.Strict(t) && forall s: byte :: s <= 11 ==> s in t.vals
  }

  /** Every run/size pair with size 1..10, end of block and ZRL have a code. */
  ghost predicate AcReady(t: H.Table) {
    && H.Strict(t) && 0x00 in t.vals && 0xF0 in t.vals
    && forall r: nat, s: nat :: r <= 15 && 1 <= s <= 10 ==> RunSize(r, s) in t.vals
  }

  function RunSize(r: nat, s: nat): (rs: byte)
    requires r <= 15 && s <= 15
    ensures rs / 16 == r && rs % 16 == s
  {
    16 * r + s
  }

  // ----- magnitude categories

  /** Number of bits of v. */
  function Category(v: nat): nat {
    if v == 0 then 0 else 1 + Category(v / 2)
  }

  function Abs(v: int): nat {
    if v < 0 then -v else v
  }

  /** The low bits sent for v: those of v, or of v - 1 when v is negative. */
  function Magnitude(v: int): nat
  {
    CategoryBounds(Abs(v));
    if v >= 0 then v else v - 1 + Pow2(Category(Abs(v)))
  }

  /** EXTEND (T.81, figure F.12). */
  function Extend(v: nat, t: nat): int {
    if t == 0 then 0 else if v < Pow2(t - 1) then v - Pow2(t) + 1 else v
  }

  lemma {:induction false} CategoryBounds(v: nat)
    ensures v < Pow2(Category(v))
    ensures v > 0 ==> Category(v) >= 1 && Pow2(Category(v) - 1) <= v
  {
    if v > 0 {
      CategoryBounds(v / 2);
    }
  }

  lemma {:induction false} CategoryAtMost(v: nat, n: nat)
    requires v < Pow2(n)
    ensures Category(v) <= n
  {
    if v > 0 && n > 0 {
      CategoryAtMost(v / 2, n - 1);
    }
  }

  lemma ExtendMagnitude(v: int)
    ensures Magnitude(v) < Pow2(Category(Abs(v)))
    ensures Extend(Magnitude(v), Category(Abs(v))) == v
  {
    CategoryBounds(Abs(v));
  }

  // ----- what the encoder emits

  /** The code of symbol v; empty when v has none. */
  function CodeBits(t: H.Table, v: byte): bitstring
    requires H.WellFormed(t)
  {
    var (code, size) := H.Lookup(t, v);
    ToBits(code, size)
  }

  function MagnitudeBits(v: int): bitstring {
    ToBits(Magnitude(v), Category(Abs(v)))
  }

  predicate DiffInRange(d: int) { Abs(d) <= 2047 }

  predicate AcInRange(b: Block) { forall k :: 1 <= k < 64 ==> Abs(b[k]) <= 1023 }

  lemma CategoryLimits(v: int)
    ensures Abs(v) <= 1023 ==> Category(Abs(v)) <= 10
    ensures Abs(v) <= 2047 ==> Category(Abs(v)) <= 11
    ensures v != 0 ==> Category(Abs(v)) >= 1
  {
    Pow2Values();
    CategoryBounds(Abs(v));
    if Abs(v) <= 1023 {
      CategoryAtMost(Abs(v), 10);
    }
    if Abs(v) <= 2047 {
      CategoryAtMost(Abs(v), 11);
    }
  }

  function EncodeDiff(t: H.Table, d: int): bitstring
    requires H.WellFormed(t) && DiffInRange(d)
  {
    CategoryLimits(d);
    CodeBits(t, Category(Abs(d))) + MagnitudeBits(d)
  }

  /** n ZRL codes, for n runs of sixteen zeros. */
  function Zrls(t: H.Table, n: nat): bitstring
    requires H.WellFormed(t)
  {
    if n == 0 then [] else CodeBits(t, 0xF0) + Zrls(t, n - 1)
  }

  /** Coefficient v after a run of at most 63 zeros. */
  function EncodeNonzero(t: H.Table, run: nat, v: int): bitstring
    requires H.WellFormed(t) && v != 0 && Abs(v) <= 1023
  {
    CategoryLimits(v);
    Zrls(t, run / 16) + (CodeBits(t, RunSize(run % 16, Category(Abs(v)))) + MagnitudeBits(v))
  }

  /** Coefficients i.. of b, when the run zeros before i have not been coded yet. */
  function EncodeAc(t: H.Table, b: Block, i: nat, run: nat): bitstring
    requires H.WellFormed(t) && AcInRange(b) && 1 <= i <= 64
    decreases 64 - i
  {
    if i == 64 then
      if run > 0 then CodeBits(t, 0x00) else []
    else if b[i] == 0 then EncodeAc(t, b, i + 1, run + 1)
    else EncodeNonzero(t, run, b[i]) + EncodeAc(t, b, i + 1, 0)
  }

  function EncodeBlock(dc: H.Table, ac: H.Table, pred: int, b: Block): bitstring
    requires H.WellFormed(dc) && H.WellFormed(ac) && DiffInRange(b[0] - pred) && AcInRange(b)
  {
    EncodeDiff(dc, b[0] - pred) + EncodeAc(ac, b, 1, 0)
  }

  /** DC predictions after coding block b of the component. */
  function NextPred(preds: seq<int>, u: CodedUnit): seq<int>
    requires u.component < |preds|
  {
    preds[u.component := u.block[0]]
  }

  function PredsAfter(units: seq<CodedUnit>, preds: seq<int>): (r: seq<int>)
    requires Components(units, |preds|)
    ensures |r| == |preds|
  {
    if units == [] then preds else PredsAfter(units[1..], NextPred(preds, units[0]))
  }

  predicate Components(units: seq<CodedUnit>, n: nat) {
    forall k :: 0 <= k < |units| ==> units[k].component < n
  }

  /** Coefficients a baseline encoder may be given: AC in category 10, DC in 11 bits with sign such
      that any two differ by category 11 at most. */
  predicate BlockInRange(b: Block) {
    -1024 <= b[0] <= 1023 && AcInRange(b)
  }

  predicate UnitsInRange(units: seq<CodedUnit>) {
    forall k :: 0 <= k < |units| ==> BlockInRange(units[k].block)
  }

  predicate PredsInRange(preds: seq<int>) {
    forall k :: 0 <= k < |preds| ==> -1024 <= preds[k] <= 1023
  }

  ghost predicate Scannable(tables: Tables, units: seq<CodedUnit>, preds: seq<int>) {
    Ready(tables) && |tables| == |preds| && Components(units, |preds|) && UnitsInRange(units) && PredsInRange(preds)
  }

  ghost predicate Codable(tables: Tables, u: CodedUnit, preds: seq<int>) {
    Ready(tables) && u.component < |tables| == |preds| && PredsInRange(preds) && BlockInRange(u.block)
  }

  ghost function EncodeUnit(tables: Tables, u: CodedUnit, preds: seq<int>): bitstring
    requires Codable(tables, u, preds)
  {
    EncodeBlock(tables[u.component].dc, tables[u.component].ac, preds[u.component], u.block)
  }

  ghost function EncodeScan(tables: Tables, units: seq<CodedUnit>, preds: seq<int>): bitstring
    requires Scannable(tables, units, preds)
  {
    if units == [] then []
    else EncodeUnit(tables, units[0], preds) + EncodeScan(tables, units[1..], NextPred(preds, units[0]))
  }

  // ----- the decoder

  function Zeros(n: nat): (z: seq<int>)
    ensures |z| == n && forall k :: 0 <= k < n ==> z[k] == 0
  {
    seq(n, _ => 0)
  }

  /** RECEIVE and EXTEND n bits (T.81, F.2.2.1). */
  function Receive(bits: bitstring, n: nat): Option<(int, bitstring)> {
    if |bits| < n then None else Some((Extend(FromBits(bits[..n]), n), bits[n..]))
  }

  function DecodeDc(t: H.Table, bits: bitstring): Option<(int, bitstring)>
    requires H.WellFormed(t)
  {
    match H.DecodeSymbol(t, bits)
    case None => None
    case Some((s, rest)) => Receive(rest, s)
  }

  /** zz holds the coefficients decoded so far (T.81, figure F.13). */
  function DecodeAc(t: H.Table, bits: bitstring, zz: seq<int>): (r: Option<(Block, bitstring)>)
    requires H.WellFormed(t) && 1 <= |zz| <= 63
    decreases 64 - |zz|
  {
    match H.DecodeSymbol(t, bits)
    case None => None
    case Some((rs, rest)) =>
      var r, s := rs / 16, rs % 16;
      if s == 0 then
        if r < 15 then Some((zz + Zeros(64 - |zz|), rest))
        else if |zz| + 16 > 63 then None
        else DecodeAc(t, rest, zz + Zeros(16))
      else if |zz| + r > 63 then None
      else
        match Receive(rest, s)
        case None => None
        case Some((v, rest')) =>
          var zz' := zz + Zeros(r) + [v];
          if |zz'| == 64 then Some((zz', rest')) else DecodeAc(t, rest', zz')
  }

  function DecodeBlock(dc: H.Table, ac: H.Table, pred: int, bits: bitstring): Option<(Block, bitstring)>
    requires H.WellFormed(dc) && H.WellFormed(ac)
  {
    match DecodeDc(dc, bits)
    case None => None
    case Some((d, rest)) => DecodeAc(ac, rest, [pred + d])
  }

  /** Decodes one block for each entry of components, in order. */
  function DecodeScan(tables: Tables, components: seq<nat>, preds: seq<int>, bits: bitstring)
    : Option<(seq<CodedUnit>, bitstring)>
    requires Usable(tables) && |tables| == |preds|
    requires forall k :: 0 <= k < |components| ==> components[k] < |preds|
    decreases |components|
  {
    if components == [] then Some(([], bits))
    else
      var c := components[0];
      match DecodeBlock(tables[c].dc, tables[c].ac, preds[c], bits)
      case None => None
      case Some((b, rest)) =>
        match DecodeScan(tables, components[1..], preds[c := b[0]], rest)
        case None => None
        case Some((units, end)) => Some(([CodedUnit(c, b)] + units, end))
  }

  // ----- round trips

  lemma SymbolRoundTrip(t: H.Table, v: byte, rest: bitstring)
    requires H.Strict(t) && v in t.vals
    ensures H.DecodeSymbol(t, CodeBits(t, v) + rest) == Some((v, rest))
  {
    H.DecodeWord(t, H.LastIndex(t.vals, v), rest);
  }

  lemma ReceiveMagnitude(v: int, rest: bitstring)
    ensures Receive(MagnitudeBits(v) + rest, Category(Abs(v))) == Some((v, rest))
  {
    hide Extend, Magnitude, FromBits, ToBits;
    var n, m := Category(Abs(v)), MagnitudeBits(v);
    ExtendMagnitude(v);
    ToFromBits(Magnitude(v), n);
    assert (m + rest)[..n] == m && (m + rest)[n..] == rest;
  }

  lemma DcRoundTrip(t: H.Table, d: int, rest: bitstring)
    requires DcReady(t) && DiffInRange(d)
    ensures DecodeDc(t, EncodeDiff(t, d) + rest) == Some((d, rest))
  {
    hide H.DecodeSymbol, H.WellFormed, H.Kraft, CodeBits, MagnitudeBits, Receive, Category;
    CategoryLimits(d);
    var s, m := CodeBits(t, Category(Abs(d))), MagnitudeBits(d);
    assert EncodeDiff(t, d) + rest == s + (m + rest);
    SymbolRoundTrip(t, Category(Abs(d)), m + rest);
    ReceiveMagnitude(d, rest);
  }

  /** Each ZRL decodes to sixteen zeros. */
  lemma {:induction false} ZrlRoundTrip(t: H.Table, n: nat, rest: bitstring, zz: seq<int>)
    requires AcReady(t) && 1 <= |zz| && |zz| + 16 * n <= 63
    ensures DecodeAc(t, Zrls(t, n) + rest, zz) == DecodeAc(t, rest, zz + Zeros(16 * n))
  {
    hide H.DecodeSymbol, H.WellFormed, H.Kraft, CodeBits, Receive;
    if n == 0 {
      assert [] + rest == rest && zz + Zeros(0) == zz;
    } else {
      var tail := Zrls(t, n - 1) + rest;
      assert Zrls(t, n) + rest == CodeBits(t, 0xF0) + tail;
      SymbolRoundTrip(t, 0xF0, tail);
      ZrlRoundTrip(t, n - 1, rest, zz + Zeros(16));
      assert zz + Zeros(16) + Zeros(16 * (n - 1)) == zz + Zeros(16 * n);
    }
  }

  /** The state of the decoder after a nonzero coefficient. */
  function AfterNonzero(t: H.Table, zz: seq<int>, rest: bitstring): Option<(Block, bitstring)>
    requires H.WellFormed(t) && 1 <= |zz| <= 64
  {
    if |zz| == 64 then Some((zz, rest)) else DecodeAc(t, rest, zz)
  }

  lemma ShortRunRoundTrip(t: H.Table, run: nat, v: int, rest: bitstring, zz: seq<int>)
    requires AcReady(t) && run <= 15 && v != 0 && Abs(v) <= 1023 && 1 <= |zz| && |zz| + run <= 63
    requires 1 <= Category(Abs(v)) <= 10
    ensures DecodeAc(t, CodeBits(t, RunSize(run, Category(Abs(v)))) + (MagnitudeBits(v) + rest), zz)
         == AfterNonzero(t, zz + Zeros(run) + [v], rest)
  {
    hide H.DecodeSymbol, H.WellFormed, H.Kraft, CodeBits, Receive, MagnitudeBits, Category, RunSize, H.Lookup;
    SymbolRoundTrip(t, RunSize(run, Category(Abs(v))), MagnitudeBits(v) + rest);
    ReceiveMagnitude(v, rest);
  }

  lemma NonzeroRoundTrip(t: H.Table, run: nat, v: int, rest: bitstring, zz: seq<int>)
    requires AcReady(t) && v != 0 && Abs(v) <= 1023 && 1 <= |zz| && |zz| + run <= 63
    ensures DecodeAc(t, EncodeNonzero(t, run, v) + rest, zz) == AfterNonzero(t, zz + Zeros(run) + [v], rest)
  {
    hide H.DecodeSymbol, H.WellFormed, H.Kraft, CodeBits, MagnitudeBits, Category, DecodeAc, Zrls, AfterNonzero;
    CategoryLimits(v);
    var q, r := run / 16, run % 16;
    var z, s, m := Zrls(t, q), CodeBits(t, RunSize(r, Category(Abs(v)))), MagnitudeBits(v);
    assert EncodeNonzero(t, run, v) + rest == z + (s + (m + rest));
    ZrlRoundTrip(t, q, s + (m + rest), zz);
    ShortRunRoundTrip(t, r, v, rest, zz + Zeros(16 * q));
    assert zz + Zeros(16 * q) + Zeros(r) == zz + Zeros(run);
  }

  lemma {:induction false} AcRoundTrip(t: H.Table, b: Block, i: nat, run: nat, rest: bitstring)
    requires AcReady(t) && AcInRange(b) && 1 <= i <= 64 && run < i
    requires forall k :: i - run <= k < i ==> b[k] == 0
    ensures AfterNonzero(t, b[..i - run], EncodeAc(t, b, i, run) + rest) == Some((b, rest))
    decreases 64 - i
  {
    hide H.DecodeSymbol, H.WellFormed, H.Kraft, CodeBits, EncodeNonzero, DecodeAc, RunSize;
    var zz := b[..i - run];
    if i == 64 {
      if run > 0 {
        EndOfBlockRoundTrip(t, zz, rest);
        assert zz + Zeros(run) == b;
      } else {
        assert zz == b && [] + rest == rest;
      }
    } else if b[i] == 0 {
      AcRoundTrip(t, b, i + 1, run + 1, rest);
    } else {
      var tail := EncodeAc(t, b, i + 1, 0) + rest;
      assert EncodeAc(t, b, i, run) + rest == EncodeNonzero(t, run, b[i]) + tail;
      NonzeroRoundTrip(t, run, b[i], tail, zz);
      assert zz + Zeros(run) + [b[i]] == b[..i + 1];
      AcRoundTrip(t, b, i + 1, 0, rest);
    }
  }

  lemma EndOfBlockRoundTrip(t: H.Table, zz: seq<int>, rest: bitstring)
    requires AcReady(t) && 1 <= |zz| <= 63
    ensures DecodeAc(t, CodeBits(t, 0x00) + rest, zz) == Some((zz + Zeros(64 - |zz|), rest))
  {
    hide H.DecodeSymbol, H.WellFormed, H.Kraft, CodeBits;
    SymbolRoundTrip(t, 0x00, rest);
  }

  /** One block, with its DC difference, run lengths and end of block, survives coding. */
  lemma BlockRoundTrip(dc: H.Table, ac: H.Table, pred: int, b: Block, rest: bitstring)
    requires DcReady(dc) && AcReady(ac) && DiffInRange(b[0] - pred) && AcInRange(b)
    ensures DecodeBlock(dc, ac, pred, EncodeBlock(dc, ac, pred, b) + rest) == Some((b, rest))
  {
    hide EncodeDiff, EncodeAc, DecodeAc, DecodeDc, H.WellFormed, H.Kraft;
    var d, a := EncodeDiff(dc, b[0] - pred), EncodeAc(ac, b, 1, 0);
    assert EncodeBlock(dc, ac, pred, b) + rest == d + (a + rest);
    DcRoundTrip(dc, b[0] - pred, a + rest);
    AcRoundTrip(ac, b, 1, 0, rest);
    assert b[..1] == [b[0]];
  }

  function ComponentsOf(units: seq<CodedUnit>): (cs: seq<nat>)
    ensures |cs| == |units| && forall k :: 0 <= k < |cs| ==> cs[k] == units[k].component
  {
    seq(|units|, k requires 0 <= k < |units| => units[k].component)
  }

  /** For any sequence of in-range blocks over the components, the T.81 decoder recovers every
      block and stops exactly where the encoder did. */
  lemma {:induction false} ScanRoundTrip(tables: Tables, units: seq<CodedUnit>, preds: seq<int>, rest: bitstring)
    requires Scannable(tables, units, preds)
    ensures DecodeScan(tables, ComponentsOf(units), preds, EncodeScan(tables, units, preds) + rest)
         == Some((units, rest))
    decreases |units|
  {
    hide EncodeUnit, DecodeBlock, H.WellFormed, H.Kraft, DcReady, AcReady;
    ReadyUsable(tables);
    if units == [] {
      assert [] + rest == rest;
    } else {
      var u := units[0];
      var next := NextPred(preds, u);
      var tail := EncodeScan(tables, units[1..], next) + rest;
      assert EncodeScan(tables, units, preds) + rest == EncodeUnit(tables, u, preds) + tail;
      UnitRoundTrip(tables, u, preds, tail);
      ScanRoundTrip(tables, units[1..], next, rest);
      assert ComponentsOf(units)[1..] == ComponentsOf(units[1..]);
      assert [u] + units[1..] == units;
    }
  }

  lemma ReadyUsable(tables: Tables)
    requires Ready(tables)
    ensures Usable(tables)
  {
    hide H.WellFormed, H.Kraft;
  }

  lemma UnitRoundTrip(tables: Tables, u: CodedUnit, preds: seq<int>, rest: bitstring)
    requires Codable(tables, u, preds)
    ensures DecodeBlock(tables[u.component].dc, tables[u.component].ac, preds[u.component],
                        EncodeUnit(tables, u, preds) + rest) == Some((u.block, rest))
  {
    hide H.WellFormed, H.Kraft;
    BlockRoundTrip(tables[u.component].dc, tables[u.component].ac, preds[u.component], u.block, rest);
  }

  /** Coding one more block appends its bits. */
  lemma {:induction false} EncodeScanAppend(tables: Tables, units: seq<CodedUnit>, u: CodedUnit, preds: seq<int>)
    requires Scannable(tables, units + [u], preds)
    ensures Scannable(tables, units, preds) && Codable(tables, u, PredsAfter(units, preds))
    ensures EncodeScan(tables, units + [u], preds)
         == EncodeScan(tables, units, preds) + EncodeUnit(tables, u, PredsAfter(units, preds))
    ensures PredsAfter(units + [u], preds) == NextPred(PredsAfter(units, preds), u)
    decreases |units|
  {
    hide EncodeUnit, Ready, AcInRange;
    assert (units + [u])[|units|] == u;
    assert forall k :: 0 <= k < |units| ==> (units + [u])[k] == units[k];
    if units == [] {
      assert [] + [u] == [u];
    } else {
      assert (units + [u])[1..] == units[1..] + [u];
      EncodeScanAppend(tables, units[1..], u, NextPred(preds, units[0]));
    }
  }
}
