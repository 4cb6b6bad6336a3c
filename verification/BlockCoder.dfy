/** code_coefficients_pass_two: codes one quantised block, keeping the DC predictions.

    The ghost history units lists every block coded since the scan began; Valid ties the bits put so
    far to EncodeScan of that history. */
module BlockCoder {
  import opened Bits
  import opened BitWriter
  import H = Huffman
  import E = EntropyCoding
  import T = StandardTables
  import C = TableCache

  class Coder {
    const writer: BitWriter
    const cache: C.Cache
    const components: nat
    const coefficientArray: array<int>
    const lastDcVal: array<int>
    ghost var units: seq<E.CodedUnit>

    ghost const Repr: set<object> := writer.Repr + {this, coefficientArray, lastDcVal}

    ghost function Tables(): E.Tables { T.Standard(components) }

    ghost predicate Shape()
      reads cache
    {
      && components <= 3 && coefficientArray.Length == 64 && lastDcVal.Length == 3
      && coefficientArray != lastDcVal && cache !in Repr
      && {coefficientArray as object, lastDcVal, this} !! writer.Repr
      && cache.Valid() && cache.huffInitialized
    }

    ghost predicate History()
      reads this, writer.Repr, lastDcVal
    {
      && lastDcVal.Length == 3 && components <= 3
      && E.Scannable(Tables(), units, E.Zeros(components))
      && lastDcVal[..components] == E.PredsAfter(units, E.Zeros(components))
      && writer.Emitted() == E.EncodeScan(Tables(), units, E.Zeros(components))
    }

    ghost predicate Valid()
      reads Repr, cache
    {
      Shape() && writer.InScan() && History()
    }

    constructor (writer: BitWriter, cache: C.Cache, components: nat)
      requires components <= 3 && writer.InScan() && writer.Emitted() == []
      requires cache.Valid() && cache.huffInitialized && cache !in writer.Repr
      ensures Valid() && units == [] && this.writer == writer && this.cache == cache && this.components == components
      ensures fresh(coefficientArray) && fresh(lastDcVal)
    {
      this.writer, this.cache, this.components := writer, cache, components;
      coefficientArray, lastDcVal := new int[64], new int[3](_ => 0);
      units := [];
      new;
      T.StandardReady(components);
      assert lastDcVal[..components] == E.Zeros(components);
    }

    lemma ValidShape()
      requires Valid()
      ensures Shape()
    {
    }

    /** Loading another block into coefficientArray leaves the coder ready. */
    twostate lemma StaysValid()
      requires old(Valid()) && unchanged(this) && unchanged(writer.Repr) && unchanged(lastDcVal) && unchanged(cache)
      ensures Valid()
    {
      hide E.Scannable, E.EncodeScan, E.PredsAfter, T.Standard;
    }

    /** Puts the code of one symbol. */
    method PutSymbol(k: nat, v: byte)
      requires k < 4 && Shape() && writer.InScan()
      modifies writer.Repr
      ensures writer.InScan() && writer.header == old(writer.header)
      ensures writer.Emitted() == old(writer.Emitted()) + E.CodeBits(C.TableOf(k), v)
    {
      hide H.WellFormed, H.Kraft, C.TableOf;
      C.TableOfUsable(k);
      LookupFits(C.TableOf(k), v);
      assert (cache.huffCodes[k][v], cache.huffCodeSizes[k][v]) == H.Lookup(C.TableOf(k), v);
      writer.PutBits(cache.huffCodes[k][v], cache.huffCodeSizes[k][v]);
    }

    /** Puts the magnitude bits of v, whose category is nbits. */
    method PutMagnitude(ghost v: int, temp2: int, nbits: nat)
      requires Shape() && writer.InScan()
      requires nbits == E.Category(E.Abs(v)) <= 16 && temp2 == if v < 0 then v - 1 else v
      modifies writer.Repr
      ensures writer.InScan() && writer.header == old(writer.header)
      ensures writer.Emitted() == old(writer.Emitted()) + E.MagnitudeBits(v)
    {
      hide Pow2, ToBits, E.Category, E.Magnitude;
      MaskMagnitude(v);
      E.ExtendMagnitude(v);
      writer.PutBits(temp2 % Pow2(nbits), nbits);
    }

    method CodeDc(component: nat)
      requires Shape() && writer.InScan() && component < components
      requires E.DiffInRange(coefficientArray[0] - lastDcVal[component])
      requires H.WellFormed(C.TableOf(DcIndex(component)))
      modifies writer.Repr, lastDcVal
      ensures writer.InScan() && writer.header == old(writer.header)
      ensures lastDcVal[..] == old(lastDcVal[..])[component := coefficientArray[0]]
      ensures writer.Emitted()
           == old(writer.Emitted())
            + E.EncodeDiff(C.TableOf(DcIndex(component)), coefficientArray[0] - old(lastDcVal[component]))
    {
      hide C.TableOf, H.WellFormed, E.MagnitudeBits, E.CodeBits, E.Category, H.Implements, BitWriter.InScan,
        BitWriter.Emitted;
      var temp1 := coefficientArray[0] - lastDcVal[component];
      var temp2 := temp1;
      ghost var d := temp1;
      E.CategoryLimits(d);
      lastDcVal[component] := coefficientArray[0];
      if temp1 < 0 {
        temp1, temp2 := -temp1, temp2 - 1;
      }
      var nbits := CountBits(temp1);
      PutSymbol(DcIndex(component), nbits);
      NoMagnitude(d);
      if nbits != 0 {
        PutMagnitude(d, temp2, nbits);
      }
    }

    /** The ZRL codes of a run. */
    method CodeZrls(k: nat, run: nat) returns (runLen: nat)
      requires 2 <= k < 4 && Shape() && writer.InScan() && H.WellFormed(C.TableOf(k))
      modifies writer.Repr
      ensures runLen == run % 16 && writer.InScan() && writer.header == old(writer.header)
      ensures writer.Emitted() == old(writer.Emitted()) + E.Zrls(C.TableOf(k), run / 16)
    {
      hide C.TableOf, H.WellFormed, E.CodeBits, E.Zrls, H.Implements, BitWriter.InScan, BitWriter.Emitted;
      runLen := run;
      ghost var t, start := C.TableOf(k), writer.Emitted();
      ZrlNone(t);
      while runLen >= 16
        invariant runLen % 16 == run % 16
        invariant writer.InScan() && writer.header == old(writer.header)
        invariant writer.Emitted() + E.Zrls(t, runLen / 16) == start + E.Zrls(t, run / 16)
      {
        ZrlStep(t, runLen / 16);
        PutSymbol(k, 0xF0);
        runLen := runLen - 16;
      }
    }

    /** One nonzero coefficient and the run of zeros before it. */
    method CodeNonzero(k: nat, run: nat, v: int)
      requires 2 <= k < 4 && Shape() && writer.InScan() && v != 0 && E.Abs(v) <= 1023
      requires H.WellFormed(C.TableOf(k))
      modifies writer.Repr
      ensures writer.InScan() && writer.header == old(writer.header)
      ensures writer.Emitted() == old(writer.Emitted()) + E.EncodeNonzero(C.TableOf(k), run, v)
    {
      hide C.TableOf, H.WellFormed, E.MagnitudeBits, E.CodeBits, E.Category, E.Zrls, E.RunSize, H.Implements;
      E.CategoryLimits(v);
      var runLen := CodeZrls(k, run);
      var temp1, temp2 := v, v;
      if temp1 < 0 {
        temp1, temp2 := -temp1, temp2 - 1;
      }
      var nbits := CountBits(temp1);
      RunSizeValue(runLen, nbits);
      PutSymbol(k, 16 * runLen + nbits);
      PutMagnitude(v, temp2, nbits);
      Regroup(old(writer.Emitted()), E.Zrls(C.TableOf(k), run / 16),
              E.CodeBits(C.TableOf(k), E.RunSize(run % 16, E.Category(E.Abs(v)))), E.MagnitudeBits(v));
    }

    method CodeAc(component: nat)
      requires Shape() && writer.InScan() && component < components && E.AcInRange(coefficientArray[..])
      requires H.WellFormed(C.TableOf(AcIndex(component)))
      modifies writer.Repr
      ensures writer.InScan() && writer.header == old(writer.header)
      ensures writer.Emitted()
           == old(writer.Emitted()) + E.EncodeAc(C.TableOf(AcIndex(component)), coefficientArray[..], 1, 0)
    {
      hide C.TableOf, H.WellFormed, E.EncodeNonzero, E.CodeBits, E.EncodeAc, H.Implements;
      ghost var b: E.Block := coefficientArray[..];
      ghost var t := C.TableOf(AcIndex(component));
      ghost var all := writer.Emitted() + E.EncodeAc(t, b, 1, 0);
      var runLen := 0;
      for i := 1 to 64
        invariant writer.InScan() && writer.header == old(writer.header)
        invariant writer.Emitted() + E.EncodeAc(t, b, i, runLen) == all
      {
        AcStep(t, b, i, runLen);
        var temp1 := coefficientArray[i];
        if temp1 == 0 {
          runLen := runLen + 1;
        } else {
          CodeNonzero(AcIndex(component), runLen, temp1);
          runLen := 0;
        }
      }
      AcEnd(t, b, runLen);
      if runLen != 0 {
        PutSymbol(AcIndex(component), 0x00);
      }
    }

    /** Codes the block in coefficientArray as the next block of the component. */
    method CodeCoefficients(component: nat)
      requires Valid() && component < components && E.BlockInRange(coefficientArray[..])
      modifies writer.Repr, lastDcVal, `units
      ensures Valid() && units == old(units) + [E.CodedUnit(component, coefficientArray[..])]
      ensures writer.header == old(writer.header)
    {
      hide C.TableOf, H.WellFormed, E.EncodeDiff, E.EncodeAc, E.EncodeScan, E.PredsAfter, E.Scannable, E.Codable,
        H.Implements, T.Standard, C.Cache.Valid, BitWriter.InScan, BitWriter.Emitted;
      ghost var u := E.CodedUnit(component, coefficientArray[..]);
      Append(Tables(), units, u, E.Zeros(components));
      UnitBits(components, u, E.PredsAfter(units, E.Zeros(components)));
      assert lastDcVal[component] == lastDcVal[..components][component];
      CodeDc(component);
      CodeAc(component);
      units := units + [u];
      assert lastDcVal[..components] == old(lastDcVal[..components])[component := coefficientArray[0]];
    }
  }

  /** The bits of a unit under the standard tables. */
  lemma UnitBits(components: nat, u: E.CodedUnit, preds: seq<int>)
    requires E.Codable(T.Standard(components), u, preds)
    ensures u.component < |preds| && E.DiffInRange(u.block[0] - preds[u.component]) && E.AcInRange(u.block)
    ensures H.WellFormed(C.TableOf(DcIndex(u.component))) && H.WellFormed(C.TableOf(AcIndex(u.component)))
    ensures E.EncodeUnit(T.Standard(components), u, preds)
         == E.EncodeDiff(C.TableOf(DcIndex(u.component)), u.block[0] - preds[u.component])
          + E.EncodeAc(C.TableOf(AcIndex(u.component)), u.block, 1, 0)
  {
    hide H.WellFormed, E.EncodeDiff, E.EncodeAc, T.Lum, T.Chroma;
    StandardIndex(components, u.component);
    C.TableOfUsable(DcIndex(u.component));
    C.TableOfUsable(AcIndex(u.component));
  }

  function DcIndex(component: nat): nat { if component == 0 then 0 else 1 }

  function AcIndex(component: nat): nat { if component == 0 then 2 else 3 }

  lemma StandardIndex(components: nat, c: nat)
    requires c < components
    ensures T.Standard(components)[c] == E.CodeTables(C.TableOf(DcIndex(c)), C.TableOf(AcIndex(c)))
  {
  }

  /** The loop that counts the bits of a magnitude. */
  method CountBits(v: int) returns (nbits: nat)
    requires v >= 0
    ensures nbits == E.Category(v)
  {
    var temp := v;
    nbits := 0;
    while temp != 0
      invariant temp >= 0 && nbits + E.Category(temp) == E.Category(v)
      decreases temp
    {
      nbits := nbits + 1;
      temp := temp / 2;
    }
  }

  lemma LookupFits(t: H.Table, v: byte)
    requires H.Strict(t)
    ensures H.Lookup(t, v).1 <= 16 && H.Lookup(t, v).0 < Pow2(H.Lookup(t, v).1)
  {
    var p := H.LastIndex(t.vals, v);
    if p >= 0 {
      H.CodeBelowOnes(t, p);
    }
  }

  /** Masking the adjusted value leaves the magnitude bits. */
  lemma MaskMagnitude(v: int)
    ensures (if v < 0 then v - 1 else v) % Pow2(E.Category(E.Abs(v))) == E.Magnitude(v)
  {
    hide Pow2, E.Category;
    var p := Pow2(E.Category(E.Abs(v)));
    E.CategoryBounds(E.Abs(v));
    Remainder(if v < 0 then v - 1 else v, p);
  }

  lemma Remainder(x: int, p: int)
    requires p > 0 && -p <= x < p
    ensures x % p == if x < 0 then x + p else x
  {
  }

  lemma NoMagnitude(d: int)
    ensures E.Category(E.Abs(d)) == 0 ==> E.MagnitudeBits(d) == []
  {
  }

  lemma Regroup(a: bitstring, z: bitstring, s: bitstring, m: bitstring)
    ensures a + z + s + m == a + (z + (s + m))
  {
  }

  lemma ZrlStep(t: H.Table, n: nat)
    requires H.WellFormed(t) && n >= 1
    ensures E.Zrls(t, n) == E.CodeBits(t, 0xF0) + E.Zrls(t, n - 1)
  {
  }

  lemma ZrlNone(t: H.Table)
    requires H.WellFormed(t)
    ensures E.Zrls(t, 0) == []
  {
  }

  lemma RunSizeValue(run: nat, s: nat)
    requires run <= 15 && s <= 15
    ensures 16 * run + s == E.RunSize(run, s)
  {
  }

  lemma AcStep(t: H.Table, b: E.Block, i: nat, run: nat)
    requires H.WellFormed(t) && E.AcInRange(b) && 1 <= i < 64
    ensures b[i] == 0 ==> E.EncodeAc(t, b, i, run) == E.EncodeAc(t, b, i + 1, run + 1)
    ensures b[i] != 0 ==> E.EncodeAc(t, b, i, run) == E.EncodeNonzero(t, run, b[i]) + E.EncodeAc(t, b, i + 1, 0)
  {
  }

  lemma AcEnd(t: H.Table, b: E.Block, run: nat)
    requires H.WellFormed(t) && E.AcInRange(b)
    ensures E.EncodeAc(t, b, 64, run) == if run > 0 then E.CodeBits(t, 0x00) else []
  {
  }

  lemma Append(tables: E.Tables, units: seq<E.CodedUnit>, u: E.CodedUnit, preds: seq<int>)
    requires E.Scannable(tables, units, preds) && u.component < |preds| && E.BlockInRange(u.block)
    ensures E.Components(units, |preds|) && |E.PredsAfter(units, preds)| == |preds|
    ensures E.Scannable(tables, units + [u], preds) && E.Codable(tables, u, E.PredsAfter(units, preds))
    ensures E.EncodeScan(tables, units + [u], preds)
         == E.EncodeScan(tables, units, preds) + E.EncodeUnit(tables, u, E.PredsAfter(units, preds))
    ensures E.PredsAfter(units + [u], preds) == E.NextPred(E.PredsAfter(units, preds), u)
  {
    hide E.EncodeScan, E.EncodeUnit, E.PredsAfter, E.AcReady, E.DcReady;
    E.EncodeScanAppend(tables, units, u, preds);
  }
}
