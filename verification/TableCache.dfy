/** The static tables shared by all encoders: quantisation tables, recomputed when the quality
    changes, and Huffman tables, computed once. */
module TableCache {
  import opened Bits
  import H = Huffman
  import Q = Quantisation
  import T = StandardTables

  /** Index of a Huffman table: 0 and 1 are the DC tables, 2 and 3 the AC tables. */
  function TableOf(k: nat): H.Table
    requires k < 4
  {
    match k
    case 0 => T.Lum().dc
    case 1 => T.Chroma().dc
    case 2 => T.Lum().ac
    case _ => T.Chroma().ac
  }

  lemma TableOfUsable(k: nat)
    requires k < 4
    ensures H.Strict(TableOf(k))
  {
    hide H.WellFormed, H.Kraft, T.AcLumVal, T.AcChromaVal;
    T.StandardReady(2);
    assert T.Standard(2)[0] == T.Lum() && T.Standard(2)[1] == T.Chroma();
  }

  class Cache {
    var lastQuality: nat
    var quant: seq<seq<int>>
    var huffInitialized: bool
    var huffCodes: seq<seq<nat>>
    var huffCodeSizes: seq<seq<nat>>

    /** Whatever opens came before, the tables are those of the last quality. */
    ghost predicate Valid()
      reads this
    {
      && lastQuality <= 100 && |quant| == 2 && |huffCodes| == |huffCodeSizes| == 4
      && (lastQuality != 0 ==> quant == [Q.StepTable(Q.LUM, lastQuality), Q.StepTable(Q.CHROMA, lastQuality)])
      && (huffInitialized ==> forall k :: 0 <= k < 4 ==> H.Implements(TableOf(k), huffCodes[k], huffCodeSizes[k]))
    }

    constructor ()
      ensures Valid() && lastQuality == 0 && !huffInitialized
    {
      lastQuality, huffInitialized := 0, false;
      quant, huffCodes, huffCodeSizes := [[], []], [[], [], [], []], [[], [], [], []];
    }

    /** The part of jpg_open that brings the static tables up to date. */
    method Load(quality: nat)
      requires Valid() && 1 <= quality <= 100
      modifies this
      ensures Valid() && lastQuality == quality && huffInitialized
    {
      hide H.Implements, Q.StepTable, TableOf;
      if lastQuality != quality {
        var lum, chroma := new int[64], new int[64];
        ComputeQuantTable(lum, Q.LUM, quality);
        ComputeQuantTable(chroma, Q.CHROMA, quality);
        lastQuality := quality;
        quant := [lum[..], chroma[..]];
      }
      if !huffInitialized {
        var c0, s0 := BuildTable(0);
        var c2, s2 := BuildTable(2);
        var c1, s1 := BuildTable(1);
        var c3, s3 := BuildTable(3);
        huffCodes, huffCodeSizes := [c0, c1, c2, c3], [s0, s1, s2, s3];
        huffInitialized := true;
      }
    }
  }

  method ComputeQuantTable(dst: array<int>, src: seq<nat>, quality: nat)
    requires dst.Length == 64 && |src| == 64 && 1 <= quality <= 100
    modifies dst
    ensures dst[..] == Q.StepTable(src, quality)
  {
    var q: nat;
    if quality < 50 {
      q := 5000 / quality;
    } else {
      q := 200 - quality * 2;
    }
    for i := 0 to 64
      invariant forall k :: 0 <= k < i ==> dst[k] == Q.Step(src[k], quality)
    {
      var j: int := src[i];
      j := (j * q + 50) / 100;
      dst[i] := if (if j > 1 then j else 1) < 255 then (if j > 1 then j else 1) else 255;
    }
  }

  /** Copies counts and symbols into 17 and 256-entry arrays. */
  method CopyTable(t: H.Table) returns (bits: array<nat>, val: array<byte>)
    requires |t.counts| == 17 && |t.vals| <= 256
    ensures fresh(bits) && fresh(val) && bits.Length == 17 && val.Length == 256
    ensures bits[..] == t.counts && val[..|t.vals|] == t.vals
  {
    bits, val := new nat[17], new byte[256](_ => 0);
    for i := 0 to 17
      invariant forall j :: 0 <= j < i ==> bits[j] == t.counts[j]
    {
      bits[i] := t.counts[i];
    }
    for i := 0 to |t.vals|
      invariant bits[..] == t.counts
      invariant forall j :: 0 <= j < i ==> val[j] == t.vals[j]
    {
      val[i] := t.vals[i];
    }
  }

  /** Builds the codes of table k. */
  method BuildTable(k: nat) returns (codes: seq<nat>, sizes: seq<nat>)
    requires k < 4
    ensures H.Implements(TableOf(k), codes, sizes)
  {
    hide TableOf, H.Implements, H.Start, H.Kraft;
    TableOfUsable(k);
    var bits, val := CopyTable(TableOf(k));
    var c, s := new nat[256], new nat[256];
    H.ComputeHuffmanTable(c, s, bits, val);
    codes, sizes := c[..], s[..];
  }
}
