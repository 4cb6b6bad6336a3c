/** The four Huffman tables the encoder loads (T.81, Annex K.3), and the fact that they give a code
    to every symbol a baseline block can need. */
module StandardTables {
  import opened Bits
  import H = Huffman
  import E = EntropyCoding

  const DC_LUM_BITS: seq<nat> := [0, 0, 1, 5, 1, 1, 1, 1, 1, 1, 0, 0, 0, 0, 0, 0, 0]
  const AC_LUM_BITS: seq<nat> := [0, 0, 2, 1, 3, 3, 2, 4, 3, 5, 5, 4, 4, 0, 0, 1, 125]
  const DC_CHROMA_BITS: seq<nat> := [0, 0, 3, 1, 1, 1, 1, 1, 1, 1, 1, 1, 0, 0, 0, 0, 0]
  const AC_CHROMA_BITS: seq<nat> := [0, 0, 2, 1, 2, 4, 4, 3, 4, 7, 5, 4, 4, 0, 1, 2, 119]

  const DC_VAL: seq<byte> := [0, 1, 2, 3, 4, 5, 6, 7, 8, 9, 10, 11]

  const LUM0: seq<byte> :=
    [0x01, 0x02, 0x03, 0x00, 0x04, 0x11, 0x05, 0x12, 0x21, 0x31, 0x41, 0x06, 0x13, 0x51, 0x61, 0x07]
  const LUM1: seq<byte> :=
    [0x22, 0x71, 0x14, 0x32, 0x81, 0x91, 0xA1, 0x08, 0x23, 0x42, 0xB1, 0xC1, 0x15, 0x52, 0xD1, 0xF0]
  const LUM2: seq<byte> :=
    [0x24, 0x33, 0x62, 0x72, 0x82, 0x09, 0x0A, 0x16, 0x17, 0x18, 0x19, 0x1A, 0x25, 0x26, 0x27, 0x28]
  const LUM3: seq<byte> :=
    [0x29, 0x2A, 0x34, 0x35, 0x36, 0x37, 0x38, 0x39, 0x3A, 0x43, 0x44, 0x45, 0x46, 0x47, 0x48, 0x49]
  const LUM4: seq<byte> :=
    [0x4A, 0x53, 0x54, 0x55, 0x56, 0x57, 0x58, 0x59, 0x5A, 0x63, 0x64, 0x65, 0x66, 0x67, 0x68, 0x69]
  const LUM5: seq<byte> :=
    [0x6A, 0x73, 0x74, 0x75, 0x76, 0x77, 0x78, 0x79, 0x7A, 0x83, 0x84, 0x85, 0x86, 0x87, 0x88, 0x89]
  const LUM6: seq<byte> :=
    [0x8A, 0x92, 0x93, 0x94, 0x95, 0x96, 0x97, 0x98, 0x99, 0x9A, 0xA2, 0xA3, 0xA4, 0xA5, 0xA6, 0xA7]
  const LUM7: seq<byte> :=
    [0xA8, 0xA9, 0xAA, 0xB2, 0xB3, 0xB4, 0xB5, 0xB6, 0xB7, 0xB8, 0xB9, 0xBA, 0xC2, 0xC3, 0xC4, 0xC5]
  const LUM8: seq<byte> :=
    [0xC6, 0xC7, 0xC8, 0xC9, 0xCA, 0xD2, 0xD3, 0xD4, 0xD5, 0xD6, 0xD7, 0xD8, 0xD9, 0xDA, 0xE1, 0xE2]
  const LUM9: seq<byte> :=
    [0xE3, 0xE4, 0xE5, 0xE6, 0xE7, 0xE8, 0xE9, 0xEA, 0xF1, 0xF2, 0xF3, 0xF4, 0xF5, 0xF6, 0xF7, 0xF8]
  const LUM10: seq<byte> := [0xF9, 0xFA]

  function AcLumVal(): (vals: seq<byte>)
    ensures |vals| == 162
  {
    LUM0 + LUM1 + LUM2 + LUM3 + LUM4 + LUM5 + LUM6 + LUM7 + LUM8 + LUM9 + LUM10
  }

  const CHROMA0: seq<byte> :=
    [0x00, 0x01, 0x02, 0x03, 0x11, 0x04, 0x05, 0x21, 0x31, 0x06, 0x12, 0x41, 0x51, 0x07, 0x61, 0x71]
  const CHROMA1: seq<byte> :=
    [0x13, 0x22, 0x32, 0x81, 0x08, 0x14, 0x42, 0x91, 0xA1, 0xB1, 0xC1, 0x09, 0x23, 0x33, 0x52, 0xF0]
  const CHROMA2: seq<byte> :=
    [0x15, 0x62, 0x72, 0xD1, 0x0A, 0x16, 0x24, 0x34, 0xE1, 0x25, 0xF1, 0x17, 0x18, 0x19, 0x1A, 0x26]
  const CHROMA3: seq<byte> :=
    [0x27, 0x28, 0x29, 0x2A, 0x35, 0x36, 0x37, 0x38, 0x39, 0x3A, 0x43, 0x44, 0x45, 0x46, 0x47, 0x48]
  const CHROMA4: seq<byte> :=
    [0x49, 0x4A, 0x53, 0x54, 0x55, 0x56, 0x57, 0x58, 0x59, 0x5A, 0x63, 0x64, 0x65, 0x66, 0x67, 0x68]
  const CHROMA5: seq<byte> :=
    [0x69, 0x6A, 0x73, 0x74, 0x75, 0x76, 0x77, 0x78, 0x79, 0x7A, 0x82, 0x83, 0x84, 0x85, 0x86, 0x87]
  const CHROMA6: seq<byte> :=
    [0x88, 0x89, 0x8A, 0x92, 0x93, 0x94, 0x95, 0x96, 0x97, 0x98, 0x99, 0x9A, 0xA2, 0xA3, 0xA4, 0xA5]
  const CHROMA7: seq<byte> :=
    [0xA6, 0xA7, 0xA8, 0xA9, 0xAA, 0xB2, 0xB3, 0xB4, 0xB5, 0xB6, 0xB7, 0xB8, 0xB9, 0xBA, 0xC2, 0xC3]
  const CHROMA8: seq<byte> :=
    [0xC4, 0xC5, 0xC6, 0xC7, 0xC8, 0xC9, 0xCA, 0xD2, 0xD3, 0xD4, 0xD5, 0xD6, 0xD7, 0xD8, 0xD9, 0xDA]
  const CHROMA9: seq<byte> :=
    [0xE2, 0xE3, 0xE4, 0xE5, 0xE6, 0xE7, 0xE8, 0xE9, 0xEA, 0xF2, 0xF3, 0xF4, 0xF5, 0xF6, 0xF7, 0xF8]
  const CHROMA10: seq<byte> := [0xF9, 0xFA]

  function AcChromaVal(): (vals: seq<byte>)
    ensures |vals| == 162
  {
    CHROMA0 + CHROMA1 + CHROMA2 + CHROMA3 + CHROMA4 + CHROMA5 + CHROMA6 + CHROMA7 + CHROMA8 + CHROMA9 + CHROMA10
  }

  function Lum(): E.CodeTables {
    E.CodeTables(H.Table(DC_LUM_BITS, DC_VAL), H.Table(AC_LUM_BITS, AcLumVal()))
  }

  function Chroma(): E.CodeTables {
    E.CodeTables(H.Table(DC_CHROMA_BITS, DC_VAL), H.Table(AC_CHROMA_BITS, AcChromaVal()))
  }

  /** Luminance tables for component 0, chrominance tables for the others. */
  function Standard(components: nat): (tables: E.Tables)
    ensures |tables| == components
  {
    seq(components, c => if c == 0 then Lum() else Chroma())
  }

  /** Where the symbols of runs 0 to 3 stand. */
  lemma LumRuns0(r: nat, s: nat)
    requires 0 <= r <= 3 && 1 <= s <= 10
    ensures E.RunSize(r, s) in AcLumVal()
  {
    assert LUM0[0] == 0x01 && LUM0[1] == 0x02 && LUM0[2] == 0x03 && LUM0[4] == 0x04 && LUM0[6] == 0x05
        && LUM0[11] == 0x06 && LUM0[15] == 0x07 && LUM1[7] == 0x08 && LUM2[5] == 0x09 && LUM2[6] == 0x0A;
    assert LUM0[5] == 0x11 && LUM0[7] == 0x12 && LUM0[12] == 0x13 && LUM1[2] == 0x14 && LUM1[12] == 0x15
        && LUM2[7] == 0x16 && LUM2[8] == 0x17 && LUM2[9] == 0x18 && LUM2[10] == 0x19 && LUM2[11] == 0x1A;
    assert LUM0[8] == 0x21 && LUM1[0] == 0x22 && LUM1[8] == 0x23 && LUM2[0] == 0x24 && LUM2[12] == 0x25
        && LUM2[13] == 0x26 && LUM2[14] == 0x27 && LUM2[15] == 0x28 && LUM3[0] == 0x29 && LUM3[1] == 0x2A;
    assert LUM0[9] == 0x31 && LUM1[3] == 0x32 && LUM2[1] == 0x33 && LUM3[2] == 0x34 && LUM3[3] == 0x35
        && LUM3[4] == 0x36 && LUM3[5] == 0x37 && LUM3[6] == 0x38 && LUM3[7] == 0x39 && LUM3[8] == 0x3A;
  }

  /** Where the symbols of runs 4 to 7 stand. */
  lemma LumRuns4(r: nat, s: nat)
    requires 4 <= r <= 7 && 1 <= s <= 10
    ensures E.RunSize(r, s) in AcLumVal()
  {
    assert LUM0[10] == 0x41 && LUM1[9] == 0x42 && LUM3[9] == 0x43 && LUM3[10] == 0x44 && LUM3[11] == 0x45
        && LUM3[12] == 0x46 && LUM3[13] == 0x47 && LUM3[14] == 0x48 && LUM3[15] == 0x49 && LUM4[0] == 0x4A;
    assert LUM0[13] == 0x51 && LUM1[13] == 0x52 && LUM4[1] == 0x53 && LUM4[2] == 0x54 && LUM4[3] == 0x55
        && LUM4[4] == 0x56 && LUM4[5] == 0x57 && LUM4[6] == 0x58 && LUM4[7] == 0x59 && LUM4[8] == 0x5A;
    assert LUM0[14] == 0x61 && LUM2[2] == 0x62 && LUM4[9] == 0x63 && LUM4[10] == 0x64 && LUM4[11] == 0x65
        && LUM4[12] == 0x66 && LUM4[13] == 0x67 && LUM4[14] == 0x68 && LUM4[15] == 0x69 && LUM5[0] == 0x6A;
    assert LUM1[1] == 0x71 && LUM2[3] == 0x72 && LUM5[1] == 0x73 && LUM5[2] == 0x74 && LUM5[3] == 0x75
        && LUM5[4] == 0x76 && LUM5[5] == 0x77 && LUM5[6] == 0x78 && LUM5[7] == 0x79 && LUM5[8] == 0x7A;
  }

  /** Where the symbols of runs 8 to 11 stand. */
  lemma LumRuns8(r: nat, s: nat)
    requires 8 <= r <= 11 && 1 <= s <= 10
    ensures E.RunSize(r, s) in AcLumVal()
  {
    assert LUM1[4] == 0x81 && LUM2[4] == 0x82 && LUM5[9] == 0x83 && LUM5[10] == 0x84 && LUM5[11] == 0x85
        && LUM5[12] == 0x86 && LUM5[13] == 0x87 && LUM5[14] == 0x88 && LUM5[15] == 0x89 && LUM6[0] == 0x8A;
    assert LUM1[5] == 0x91 && LUM6[1] == 0x92 && LUM6[2] == 0x93 && LUM6[3] == 0x94 && LUM6[4] == 0x95
        && LUM6[5] == 0x96 && LUM6[6] == 0x97 && LUM6[7] == 0x98 && LUM6[8] == 0x99 && LUM6[9] == 0x9A;
    assert LUM1[6] == 0xA1 && LUM6[10] == 0xA2 && LUM6[11] == 0xA3 && LUM6[12] == 0xA4 && LUM6[13] == 0xA5
        && LUM6[14] == 0xA6 && LUM6[15] == 0xA7 && LUM7[0] == 0xA8 && LUM7[1] == 0xA9 && LUM7[2] == 0xAA;
    assert LUM1[10] == 0xB1 && LUM7[3] == 0xB2 && LUM7[4] == 0xB3 && LUM7[5] == 0xB4 && LUM7[6] == 0xB5
        && LUM7[7] == 0xB6 && LUM7[8] == 0xB7 && LUM7[9] == 0xB8 && LUM7[10] == 0xB9 && LUM7[11] == 0xBA;
  }

  /** Where the symbols of runs 12 to 15 stand. */
  lemma LumRuns12(r: nat, s: nat)
    requires 12 <= r <= 15 && 1 <= s <= 10
    ensures E.RunSize(r, s) in AcLumVal()
  {
    assert LUM1[11] == 0xC1 && LUM7[12] == 0xC2 && LUM7[13] == 0xC3 && LUM7[14] == 0xC4 && LUM7[15] == 0xC5
        && LUM8[0] == 0xC6 && LUM8[1] == 0xC7 && LUM8[2] == 0xC8 && LUM8[3] == 0xC9 && LUM8[4] == 0xCA;
    assert LUM1[14] == 0xD1 && LUM8[5] == 0xD2 && LUM8[6] == 0xD3 && LUM8[7] == 0xD4 && LUM8[8] == 0xD5
        && LUM8[9] == 0xD6 && LUM8[10] == 0xD7 && LUM8[11] == 0xD8 && LUM8[12] == 0xD9 && LUM8[13] == 0xDA;
    assert LUM8[14] == 0xE1 && LUM8[15] == 0xE2 && LUM9[0] == 0xE3 && LUM9[1] == 0xE4 && LUM9[2] == 0xE5
        && LUM9[3] == 0xE6 && LUM9[4] == 0xE7 && LUM9[5] == 0xE8 && LUM9[6] == 0xE9 && LUM9[7] == 0xEA;
    assert LUM9[8] == 0xF1 && LUM9[9] == 0xF2 && LUM9[10] == 0xF3 && LUM9[11] == 0xF4 && LUM9[12] == 0xF5
        && LUM9[13] == 0xF6 && LUM9[14] == 0xF7 && LUM9[15] == 0xF8 && LUM10[0] == 0xF9 && LUM10[1] == 0xFA;
  }

  lemma AcLumReady()
    ensures E.AcReady(Lum().ac)
  {
    hide AcLumVal, E.RunSize, H.Start, H.Kraft;
    AcLumEnds();
    SumsLum();
    forall r: nat, s: nat | r <= 15 && 1 <= s <= 10
      ensures E.RunSize(r, s) in AcLumVal()
    {
      if r <= 3 {
        LumRuns0(r, s);
      } else if r <= 7 {
        LumRuns4(r, s);
      } else if r <= 11 {
        LumRuns8(r, s);
      } else {
        LumRuns12(r, s);
      }
    }
  }

  lemma AcLumEnds()
    ensures 0x00 in AcLumVal() && 0xF0 in AcLumVal()
  {
    assert LUM0[3] == 0x00 && LUM1[15] == 0xF0;
  }

  /** Where the symbols of runs 0 to 3 stand. */
  lemma ChromaRuns0(r: nat, s: nat)
    requires 0 <= r <= 3 && 1 <= s <= 10
    ensures E.RunSize(r, s) in AcChromaVal()
  {
    assert CHROMA0[1] == 0x01 && CHROMA0[2] == 0x02 && CHROMA0[3] == 0x03 && CHROMA0[5] == 0x04 && CHROMA0[6] == 0x05
        && CHROMA0[9] == 0x06 && CHROMA0[13] == 0x07 && CHROMA1[4] == 0x08 && CHROMA1[11] == 0x09 && CHROMA2[4] == 0x0A;
    assert CHROMA0[4] == 0x11 && CHROMA0[10] == 0x12 && CHROMA1[0] == 0x13 && CHROMA1[5] == 0x14 && CHROMA2[0] == 0x15
        && CHROMA2[5] == 0x16 && CHROMA2[11] == 0x17 && CHROMA2[12] == 0x18 && CHROMA2[13] == 0x19
        && CHROMA2[14] == 0x1A;
    assert CHROMA0[7] == 0x21 && CHROMA1[1] == 0x22 && CHROMA1[12] == 0x23 && CHROMA2[6] == 0x24 && CHROMA2[9] == 0x25
        && CHROMA2[15] == 0x26 && CHROMA3[0] == 0x27 && CHROMA3[1] == 0x28 && CHROMA3[2] == 0x29 && CHROMA3[3] == 0x2A;
    assert CHROMA0[8] == 0x31 && CHROMA1[2] == 0x32 && CHROMA1[13] == 0x33 && CHROMA2[7] == 0x34 && CHROMA3[4] == 0x35
        && CHROMA3[5] == 0x36 && CHROMA3[6] == 0x37 && CHROMA3[7] == 0x38 && CHROMA3[8] == 0x39 && CHROMA3[9] == 0x3A;
  }

  /** Where the symbols of runs 4 to 7 stand. */
  lemma ChromaRuns4(r: nat, s: nat)
    requires 4 <= r <= 7 && 1 <= s <= 10
    ensures E.RunSize(r, s) in AcChromaVal()
  {
    assert CHROMA0[11] == 0x41 && CHROMA1[6] == 0x42 && CHROMA3[10] == 0x43 && CHROMA3[11] == 0x44
      && CHROMA3[12] == 0x45
        && CHROMA3[13] == 0x46 && CHROMA3[14] == 0x47 && CHROMA3[15] == 0x48 && CHROMA4[0] == 0x49
        && CHROMA4[1] == 0x4A;
    assert CHROMA0[12] == 0x51 && CHROMA1[14] == 0x52 && CHROMA4[2] == 0x53 && CHROMA4[3] == 0x54 && CHROMA4[4] == 0x55
        && CHROMA4[5] == 0x56 && CHROMA4[6] == 0x57 && CHROMA4[7] == 0x58 && CHROMA4[8] == 0x59 && CHROMA4[9] == 0x5A;
    assert CHROMA0[14] == 0x61 && CHROMA2[1] == 0x62 && CHROMA4[10] == 0x63 && CHROMA4[11] == 0x64
      && CHROMA4[12] == 0x65
        && CHROMA4[13] == 0x66 && CHROMA4[14] == 0x67 && CHROMA4[15] == 0x68 && CHROMA5[0] == 0x69
        && CHROMA5[1] == 0x6A;
    assert CHROMA0[15] == 0x71 && CHROMA2[2] == 0x72 && CHROMA5[2] == 0x73 && CHROMA5[3] == 0x74 && CHROMA5[4] == 0x75
        && CHROMA5[5] == 0x76 && CHROMA5[6] == 0x77 && CHROMA5[7] == 0x78 && CHROMA5[8] == 0x79 && CHROMA5[9] == 0x7A;
  }

  /** Where the symbols of runs 8 to 11 stand. */
  lemma ChromaRuns8(r: nat, s: nat)
    requires 8 <= r <= 11 && 1 <= s <= 10
    ensures E.RunSize(r, s) in AcChromaVal()
  {
    assert CHROMA1[3] == 0x81 && CHROMA5[10] == 0x82 && CHROMA5[11] == 0x83 && CHROMA5[12] == 0x84
      && CHROMA5[13] == 0x85
        && CHROMA5[14] == 0x86 && CHROMA5[15] == 0x87 && CHROMA6[0] == 0x88 && CHROMA6[1] == 0x89 && CHROMA6[2] == 0x8A;
    assert CHROMA1[7] == 0x91 && CHROMA6[3] == 0x92 && CHROMA6[4] == 0x93 && CHROMA6[5] == 0x94 && CHROMA6[6] == 0x95
        && CHROMA6[7] == 0x96 && CHROMA6[8] == 0x97 && CHROMA6[9] == 0x98 && CHROMA6[10] == 0x99 && CHROMA6[11] == 0x9A;
    assert CHROMA1[8] == 0xA1 && CHROMA6[12] == 0xA2 && CHROMA6[13] == 0xA3 && CHROMA6[14] == 0xA4
      && CHROMA6[15] == 0xA5
        && CHROMA7[0] == 0xA6 && CHROMA7[1] == 0xA7 && CHROMA7[2] == 0xA8 && CHROMA7[3] == 0xA9 && CHROMA7[4] == 0xAA;
    assert CHROMA1[9] == 0xB1 && CHROMA7[5] == 0xB2 && CHROMA7[6] == 0xB3 && CHROMA7[7] == 0xB4 && CHROMA7[8] == 0xB5
        && CHROMA7[9] == 0xB6 && CHROMA7[10] == 0xB7 && CHROMA7[11] == 0xB8 && CHROMA7[12] == 0xB9
        && CHROMA7[13] == 0xBA;
  }

  /** Where the symbols of runs 12 to 15 stand. */
  lemma ChromaRuns12(r: nat, s: nat)
    requires 12 <= r <= 15 && 1 <= s <= 10
    ensures E.RunSize(r, s) in AcChromaVal()
  {
    assert CHROMA1[10] == 0xC1 && CHROMA7[14] == 0xC2 && CHROMA7[15] == 0xC3 && CHROMA8[0] == 0xC4 && CHROMA8[1] == 0xC5
        && CHROMA8[2] == 0xC6 && CHROMA8[3] == 0xC7 && CHROMA8[4] == 0xC8 && CHROMA8[5] == 0xC9 && CHROMA8[6] == 0xCA;
    assert CHROMA2[3] == 0xD1 && CHROMA8[7] == 0xD2 && CHROMA8[8] == 0xD3 && CHROMA8[9] == 0xD4 && CHROMA8[10] == 0xD5
        && CHROMA8[11] == 0xD6 && CHROMA8[12] == 0xD7 && CHROMA8[13] == 0xD8 && CHROMA8[14] == 0xD9
        && CHROMA8[15] == 0xDA;
    assert CHROMA2[8] == 0xE1 && CHROMA9[0] == 0xE2 && CHROMA9[1] == 0xE3 && CHROMA9[2] == 0xE4 && CHROMA9[3] == 0xE5
        && CHROMA9[4] == 0xE6 && CHROMA9[5] == 0xE7 && CHROMA9[6] == 0xE8 && CHROMA9[7] == 0xE9 && CHROMA9[8] == 0xEA;
    assert CHROMA2[10] == 0xF1 && CHROMA9[9] == 0xF2 && CHROMA9[10] == 0xF3 && CHROMA9[11] == 0xF4
      && CHROMA9[12] == 0xF5
        && CHROMA9[13] == 0xF6 && CHROMA9[14] == 0xF7 && CHROMA9[15] == 0xF8 && CHROMA10[0] == 0xF9
        && CHROMA10[1] == 0xFA;
  }

  lemma AcChromaReady()
    ensures E.AcReady(Chroma().ac)
  {
    hide AcChromaVal, E.RunSize, H.Start, H.Kraft;
    AcChromaEnds();
    SumsChroma();
    forall r: nat, s: nat | r <= 15 && 1 <= s <= 10
      ensures E.RunSize(r, s) in AcChromaVal()
    {
      if r <= 3 {
        ChromaRuns0(r, s);
      } else if r <= 7 {
        ChromaRuns4(r, s);
      } else if r <= 11 {
        ChromaRuns8(r, s);
      } else {
        ChromaRuns12(r, s);
      }
    }
  }

  lemma AcChromaEnds()
    ensures 0x00 in AcChromaVal() && 0xF0 in AcChromaVal()
  {
    assert CHROMA0[0] == 0x00 && CHROMA1[15] == 0xF0;
  }

  lemma FirstLengths(b: seq<nat>)
    requires |b| == 17
    ensures H.Start(b, 5) == b[1] + b[2] + b[3] + b[4]
    ensures H.First(b, 5) == 2 * (2 * (2 * (2 * b[1] + b[2]) + b[3]) + b[4])
  {
    FourLengths(b, 1, 0, 0);
  }

  /** Number of codes and first code four lengths further. */
  lemma FourLengths(b: seq<nat>, l: nat, start: nat, first: nat)
    requires |b| == 17 && 1 <= l <= 13 && H.Start(b, l) == start && H.First(b, l) == first
    ensures H.Start(b, l + 4) == start + b[l] + b[l + 1] + b[l + 2] + b[l + 3]
    ensures H.First(b, l + 4) == 2 * (2 * (2 * (2 * (first + b[l]) + b[l + 1]) + b[l + 2]) + b[l + 3])
  {
    TwoLengths(b, l, start, first);
    TwoLengths(b, l + 2, start + b[l] + b[l + 1], 2 * (2 * (first + b[l]) + b[l + 1]));
  }

  lemma TwoLengths(b: seq<nat>, l: nat, start: nat, first: nat)
    requires |b| == 17 && 1 <= l <= 15 && H.Start(b, l) == start && H.First(b, l) == first
    ensures H.Start(b, l + 2) == start + b[l] + b[l + 1]
    ensures H.First(b, l + 2) == 2 * (2 * (first + b[l]) + b[l + 1])
  {
    assert H.Start(b, l + 1) == start + b[l] && H.First(b, l + 1) == 2 * (first + b[l]);
  }

  /** A code space whose codes of length 16 end before all ones is not full. */
  lemma KraftOfLast(b: seq<nat>, end: nat)
    requires |b| == 17 && H.First(b, 17) == 2 * end && end < 65536
    ensures H.Kraft(b, 17) < Pow2(16)
  {
    hide H.Kraft, Pow2;
    H.KraftFirst(b, 16);
    assert H.First(b, 16) + b[16] == end;
    assert Shl(end, 0) == end;
    Pow2Values();
  }

  lemma SumsDcLum()
    ensures H.Start(DC_LUM_BITS, 17) == 12 && H.Kraft(DC_LUM_BITS, 17) < Pow2(16)
  {
    hide H.Kraft, Pow2, H.Start, H.First;
    var b := DC_LUM_BITS;
    FirstLengths(b);
    FourLengths(b, 5, 7, 30);
    FourLengths(b, 9, 11, 510);
    FourLengths(b, 13, 12, 8176);
    KraftOfLast(b, 65408);
  }

  lemma SumsLum()
    ensures H.Start(AC_LUM_BITS, 17) == 162 && H.Kraft(AC_LUM_BITS, 17) < Pow2(16)
  {
    hide H.Kraft, Pow2, H.Start, H.First;
    var b := AC_LUM_BITS;
    FirstLengths(b);
    FourLengths(b, 5, 6, 26);
    FourLengths(b, 9, 18, 502);
    FourLengths(b, 13, 36, 8176);
    KraftOfLast(b, 65535);
  }

  lemma SumsDcChroma()
    ensures H.Start(DC_CHROMA_BITS, 17) == 12 && H.Kraft(DC_CHROMA_BITS, 17) < Pow2(16)
  {
    hide H.Kraft, Pow2, H.Start, H.First;
    var b := DC_CHROMA_BITS;
    FirstLengths(b);
    FourLengths(b, 5, 5, 30);
    FourLengths(b, 9, 9, 510);
    FourLengths(b, 13, 12, 8188);
    KraftOfLast(b, 65504);
  }

  lemma SumsChroma()
    ensures H.Start(AC_CHROMA_BITS, 17) == 162 && H.Kraft(AC_CHROMA_BITS, 17) < Pow2(16)
  {
    hide H.Kraft, Pow2, H.Start, H.First;
    var b := AC_CHROMA_BITS;
    FirstLengths(b);
    FourLengths(b, 5, 5, 24);
    FourLengths(b, 9, 20, 500);
    FourLengths(b, 13, 40, 8176);
    KraftOfLast(b, 65535);
  }

  lemma DcReady()
    ensures E.DcReady(Lum().dc) && E.DcReady(Chroma().dc)
  {
    hide H.Start, H.Kraft;
    SumsDcLum();
    SumsDcChroma();
    forall s: byte | s <= 11
      ensures s in DC_VAL
    {
      assert DC_VAL[s] == s;
    }
  }

  /** The first n run/size pairs, size by size within each run, with end of block and ZRL. */
  function Symbols(n: nat): (symbols: set<byte>)
    requires n <= 160
    ensures |symbols| == n + 2
    ensures forall v :: v in symbols ==> v == 0x00 || v == 0xF0 || (1 <= v % 16 <= 10 && 10 * (v / 16) + v % 16 <= n)
  {
    if n == 0 then {0x00, 0xF0}
    else
      assert (n - 1) / 10 <= 15;
      Symbols(n - 1) + {E.RunSize((n - 1) / 10, (n - 1) % 10 + 1)}
  }

  lemma {:induction false} SymbolsListed(t: H.Table, n: nat)
    requires E.AcReady(t) && n <= 160
    ensures Symbols(n) <= H.Elements(t.vals)
  {
    hide E.RunSize, H.Strict;
    if n > 0 {
      SymbolsListed(t, n - 1);
    }
  }

  /** 162 places for 162 different symbols leave none for a second copy. */
  lemma AcSymbolsOnce(t: H.Table)
    requires E.AcReady(t) && |t.vals| == 162
    ensures H.Distinct(t.vals) && H.Elements(t.vals) == Symbols(160)
  {
    hide Symbols, H.Strict;
    SymbolsListed(t, 160);
    SubsetSize(Symbols(160), H.Elements(t.vals));
    H.ElementsBound(t.vals);
    H.AsManyElements(t.vals);
    if Symbols(160) != H.Elements(t.vals) {
      var v :| v in H.Elements(t.vals) && v !in Symbols(160);
      SubsetSize(Symbols(160) + {v}, H.Elements(t.vals));
    }
  }

  lemma SubsetSize(a: set<byte>, b: set<byte>)
    requires a <= b
    ensures |a| <= |b|
  {
    assert a + (b - a) == b;
  }

  /** Every symbol a block in range needs has a code in the tables the encoder loads. */
  lemma StandardReady(components: nat)
    ensures E.Ready(Standard(components))
  {
    hide H.Start, H.Kraft, AcLumVal, AcChromaVal;
    DcReady();
    AcLumReady();
    AcChromaReady();
  }

  /** Every symbol is sent as the code that belongs to its place in the list. */
  ghost predicate OwnCodes(t: H.Table)
    requires H.WellFormed(t)
  {
    forall p :: 0 <= p < |t.vals| ==> H.Lookup(t, t.vals[p]) == (H.CodeOf(t.counts, p), H.LengthOf(t.counts, p))
  }

  lemma SentAsOwn(t: H.Table)
    requires H.WellFormed(t) && H.Distinct(t.vals)
    ensures OwnCodes(t)
  {
    hide H.Lookup, H.CodeOf, H.LengthOf, H.Distinct, H.Start;
    forall p | 0 <= p < |t.vals|
      ensures H.Lookup(t, t.vals[p]) == (H.CodeOf(t.counts, p), H.LengthOf(t.counts, p))
    {
      H.LookupOwn(t, p);
    }
  }

  lemma DcSymbolsOnce()
    ensures H.Distinct(DC_VAL)
  {
    assert forall k :: 0 <= k < |DC_VAL| ==> DC_VAL[k] == k;
  }

  /** No table lists a symbol twice, and the AC tables hold just the symbols a block can need. */
  lemma EachSymbolOnce(components: nat, c: nat)
    requires c < components
    ensures var t := Standard(components)[c];
      && H.Distinct(t.dc.vals) && H.Distinct(t.ac.vals) && H.Elements(t.ac.vals) == Symbols(160)
      && H.WellFormed(t.dc) && H.WellFormed(t.ac) && OwnCodes(t.dc) && OwnCodes(t.ac)
  {
    hide H.Start, H.Kraft, AcLumVal, AcChromaVal, Symbols, E.RunSize, H.Elements, H.Distinct, OwnCodes;
    var t := Standard(components)[c];
    DcReady();
    AcLumReady();
    AcChromaReady();
    DcSymbolsOnce();
    AcSymbolsOnce(t.ac);
    SentAsOwn(t.dc);
    SentAsOwn(t.ac);
  }
}
