/** The writer's four code tables, each compared with the canonical code of the counts and symbols it
    announces, and what that gives for every block. */
module JpegStandardTables {
  import opened Bits
  import opened JpegBlock
  import opened JpegStandard
  import opened JpegWriter

  // ---- The DC luminance code ----

  const DC_LUMINANCE_COUNT: seq<nat> := [0, 1, 5, 1, 1, 1, 1, 1, 1, 0, 0, 0, 0, 0, 0, 0]
  const DC_LUMINANCE_STARTS: seq<nat> := [0, 0, 1, 6, 7, 8, 9, 10, 11, 12, 12, 12, 12, 12, 12, 12, 12]
  const DC_LUMINANCE_FIRSTS: seq<nat> := [
    0, 0, 2, 14, 30, 62, 126, 254, 510, 1022, 2044, 4088, 8176, 16352, 32704, 65408, 130816
  ]
  const DC_LUMINANCE_OFFSETS: seq<nat> := [0, 1, 6, 7, 8, 9, 10, 11, 12]
  const DC_LUMINANCE_CODES: seq<(nat, nat)> := [
    (0, 2), (2, 3), (14, 4), (30, 5), (62, 6), (126, 7), (254, 8), (510, 9)
  ]
  const DC_LUMINANCE_ROWS: seq<seq<byte>> := [
    [0x00], [0x01, 0x02, 0x03, 0x04, 0x05], [0x06], [0x07], [0x08], [0x09], [0x0a], [0x0b]
  ]
  const DC_LUMINANCE_RUNS: seq<seq<(nat, nat)>> := [
    [(0, 2), (2, 3), (3, 3), (4, 3), (5, 3), (6, 3), (14, 4), (30, 5), (62, 6), (126, 7), (254, 8), (510, 9)]
  ]
  const DC_LUMINANCE: Standard := Standard(
    DC_LUMINANCE_COUNT, DC_LUMINANCE_ROWS, DC_LUMINANCE_CODES, DC_LUMINANCE_RUNS,
    DC_LUMINANCE_OFFSETS, DC_LUMINANCE_STARTS, DC_LUMINANCE_FIRSTS)

  lemma {:induction false} DcLuminanceCounted()
    ensures Counted(DC_LUMINANCE) && FitsBits(DC_LUMINANCE.count, DC_LUMINANCE.firsts)
  {
    hide StartsUp, FirstsUp, FitsBits, OffsetsUp, Begins, Ends, InStep;
    DcLuminanceStarts();
    DcLuminanceFirsts();
    DcLuminanceOffsets();
    DcLuminanceBegins();
    DcLuminanceEnds();
    DcLuminanceInStep();
  }

  lemma {:induction false} DcLuminanceStarts()
    ensures StartsUp(DC_LUMINANCE_COUNT, DC_LUMINANCE_STARTS)
  {
  }

  lemma {:induction false} DcLuminanceFirsts()
    ensures FirstsUp(DC_LUMINANCE_COUNT, DC_LUMINANCE_FIRSTS) && FitsBits(DC_LUMINANCE_COUNT, DC_LUMINANCE_FIRSTS)
  {
    Pow2Values();
  }

  lemma {:induction false} DcLuminanceOffsets()
    ensures OffsetsUp(DC_LUMINANCE_ROWS, DC_LUMINANCE_OFFSETS)
  {
  }

  lemma {:induction false} DcLuminanceBegins()
    ensures Begins(DC_LUMINANCE_CODES, DC_LUMINANCE_OFFSETS, DC_LUMINANCE_STARTS)
  {
  }

  lemma {:induction false} DcLuminanceEnds()
    ensures Ends(DC_LUMINANCE_CODES, DC_LUMINANCE_OFFSETS, DC_LUMINANCE_STARTS)
  {
  }

  lemma {:induction false} DcLuminanceInStep()
    ensures InStep(DC_LUMINANCE_CODES, DC_LUMINANCE_OFFSETS, DC_LUMINANCE_STARTS, DC_LUMINANCE_FIRSTS)
  {
  }

  lemma {:induction false} DcLuminanceRows(k: nat)
    requires k < 8
    ensures forall j :: 0 <= j < |DC_LUMINANCE_ROWS[k]| ==>
      Entry(DC_LUMINANCE_RUNS, DC_LUMINANCE_ROWS[k][j]) == (DC_LUMINANCE_CODES[k].0 + j, DC_LUMINANCE_CODES[k].1)
  {
  }

  lemma {:induction false} DcLuminanceRowsRight()
    ensures RowsRight(DC_LUMINANCE)
  {
    hide Entry, RowRight;
    assert |DC_LUMINANCE_ROWS| == |DC_LUMINANCE_CODES| == 8;
    forall k: nat | k < 8
      ensures RowRight(DC_LUMINANCE_RUNS, DC_LUMINANCE_ROWS[k], DC_LUMINANCE_CODES[k].0, DC_LUMINANCE_CODES[k].1)
    {
      DcLuminanceRows(k);
      RowIsRight(DC_LUMINANCE_RUNS, DC_LUMINANCE_ROWS[k], |DC_LUMINANCE_ROWS[k]|,
                 DC_LUMINANCE_CODES[k].0, DC_LUMINANCE_CODES[k].1);
    }
  }

  lemma {:induction false} DcLuminanceElements()
    ensures forall k, j :: 0 <= k < |DC_LUMINANCE_ROWS| && 0 <= j < |DC_LUMINANCE_ROWS[k]| ==>
      DC_LUMINANCE_ROWS[k][j] in DcSymbols()
  {
  }

  lemma {:induction false} DcLuminanceCovers()
    ensures Covers(DC_LUMINANCE, DcSymbols())
  {
    hide StartsUp, FirstsUp, FitsBits, OffsetsUp, Begins, Ends, InStep, RowRight, IsAcSymbol, AcSymbols, DcSymbols;
    DcLuminanceCounted();
    DcLuminanceRowsRight();
    assert DC_LUMINANCE_STARTS[16] == 12;
    DcLuminanceElements();
  }

  // ---- The DC chrominance code ----

  const DC_CHROMINANCE_COUNT: seq<nat> := [0, 3, 1, 1, 1, 1, 1, 1, 1, 1, 1, 0, 0, 0, 0, 0]
  const DC_CHROMINANCE_STARTS: seq<nat> := [0, 0, 3, 4, 5, 6, 7, 8, 9, 10, 11, 12, 12, 12, 12, 12, 12]
  const DC_CHROMINANCE_FIRSTS: seq<nat> := [
    0, 0, 6, 14, 30, 62, 126, 254, 510, 1022, 2046, 4094, 8188, 16376, 32752, 65504, 131008
  ]
  const DC_CHROMINANCE_OFFSETS: seq<nat> := [0, 3, 4, 5, 6, 7, 8, 9, 10, 11, 12]
  const DC_CHROMINANCE_CODES: seq<(nat, nat)> := [
    (0, 2), (6, 3), (14, 4), (30, 5), (62, 6), (126, 7), (254, 8), (510, 9), (1022, 10), (2046, 11)
  ]
  const DC_CHROMINANCE_ROWS: seq<seq<byte>> := [
    [0x00, 0x01, 0x02], [0x03], [0x04], [0x05], [0x06], [0x07], [0x08], [0x09], [0x0a], [0x0b]
  ]
  const DC_CHROMINANCE_RUNS: seq<seq<(nat, nat)>> := [
    [(0, 2), (1, 2), (2, 2), (6, 3), (14, 4), (30, 5), (62, 6), (126, 7), (254, 8), (510, 9), (1022, 10), (2046, 11)]
  ]
  const DC_CHROMINANCE: Standard := Standard(
    DC_CHROMINANCE_COUNT, DC_CHROMINANCE_ROWS, DC_CHROMINANCE_CODES, DC_CHROMINANCE_RUNS,
    DC_CHROMINANCE_OFFSETS, DC_CHROMINANCE_STARTS, DC_CHROMINANCE_FIRSTS)

  lemma {:induction false} DcChrominanceCounted()
    ensures Counted(DC_CHROMINANCE) && FitsBits(DC_CHROMINANCE.count, DC_CHROMINANCE.firsts)
  {
    hide StartsUp, FirstsUp, FitsBits, OffsetsUp, Begins, Ends, InStep;
    DcChrominanceStarts();
    DcChrominanceFirsts();
    DcChrominanceOffsets();
    DcChrominanceBegins();
    DcChrominanceEnds();
    DcChrominanceInStep();
  }

  lemma {:induction false} DcChrominanceStarts()
    ensures StartsUp(DC_CHROMINANCE_COUNT, DC_CHROMINANCE_STARTS)
  {
  }

  lemma {:induction false} DcChrominanceFirsts()
    ensures FirstsUp(DC_CHROMINANCE_COUNT, DC_CHROMINANCE_FIRSTS) && FitsBits(DC_CHROMINANCE_COUNT, DC_CHROMINANCE_FIRSTS)
  {
    Pow2Values();
  }

  lemma {:induction false} DcChrominanceOffsets()
    ensures OffsetsUp(DC_CHROMINANCE_ROWS, DC_CHROMINANCE_OFFSETS)
  {
  }

  lemma {:induction false} DcChrominanceBegins()
    ensures Begins(DC_CHROMINANCE_CODES, DC_CHROMINANCE_OFFSETS, DC_CHROMINANCE_STARTS)
  {
  }

  lemma {:induction false} DcChrominanceEnds()
    ensures Ends(DC_CHROMINANCE_CODES, DC_CHROMINANCE_OFFSETS, DC_CHROMINANCE_STARTS)
  {
  }

  lemma {:induction false} DcChrominanceInStep()
    ensures InStep(DC_CHROMINANCE_CODES, DC_CHROMINANCE_OFFSETS, DC_CHROMINANCE_STARTS, DC_CHROMINANCE_FIRSTS)
  {
  }

  lemma {:induction false} DcChrominanceRows(k: nat)
    requires k < 10
    ensures forall j :: 0 <= j < |DC_CHROMINANCE_ROWS[k]| ==>
      Entry(DC_CHROMINANCE_RUNS, DC_CHROMINANCE_ROWS[k][j])
      == (DC_CHROMINANCE_CODES[k].0 + j, DC_CHROMINANCE_CODES[k].1)
  {
  }

  lemma {:induction false} DcChrominanceRowsRight()
    ensures RowsRight(DC_CHROMINANCE)
  {
    hide Entry, RowRight;
    assert |DC_CHROMINANCE_ROWS| == |DC_CHROMINANCE_CODES| == 10;
    forall k: nat | k < 10
      ensures RowRight(DC_CHROMINANCE_RUNS, DC_CHROMINANCE_ROWS[k], DC_CHROMINANCE_CODES[k].0, DC_CHROMINANCE_CODES[k].1)
    {
      DcChrominanceRows(k);
      RowIsRight(DC_CHROMINANCE_RUNS, DC_CHROMINANCE_ROWS[k], |DC_CHROMINANCE_ROWS[k]|,
                 DC_CHROMINANCE_CODES[k].0, DC_CHROMINANCE_CODES[k].1);
    }
  }

  lemma {:induction false} DcChrominanceElements()
    ensures forall k, j :: 0 <= k < |DC_CHROMINANCE_ROWS| && 0 <= j < |DC_CHROMINANCE_ROWS[k]| ==>
      DC_CHROMINANCE_ROWS[k][j] in DcSymbols()
  {
  }

  lemma {:induction false} DcChrominanceCovers()
    ensures Covers(DC_CHROMINANCE, DcSymbols())
  {
    hide StartsUp, FirstsUp, FitsBits, OffsetsUp, Begins, Ends, InStep, RowRight, IsAcSymbol, AcSymbols, DcSymbols;
    DcChrominanceCounted();
    DcChrominanceRowsRight();
    assert DC_CHROMINANCE_STARTS[16] == 12;
    DcChrominanceElements();
  }

  // ---- The AC luminance code ----

  const AC_LUMINANCE_COUNT: seq<nat> := [0, 2, 1, 3, 3, 2, 4, 3, 5, 5, 4, 4, 0, 0, 1, 125]
  const AC_LUMINANCE_STARTS: seq<nat> := [0, 0, 2, 3, 6, 9, 11, 15, 18, 23, 28, 32, 36, 36, 36, 37, 162]
  const AC_LUMINANCE_FIRSTS: seq<nat> := [
    0, 0, 4, 10, 26, 58, 120, 248, 502, 1014, 2038, 4084, 8176, 16352, 32704, 65410, 131070
  ]
  const AC_LUMINANCE_OFFSETS: seq<nat> := [0, 2, 3, 6, 9, 11, 15, 18, 23, 28, 32, 36, 37, 62, 87, 112, 137, 162]
  const AC_LUMINANCE_CODES: seq<(nat, nat)> := [
    (0, 2), (4, 3), (10, 4), (26, 5), (58, 6), (120, 7), (248, 8), (502, 9), (1014, 10), (2038, 11), (4084, 12),
    (32704, 15), (65410, 16), (65435, 16), (65460, 16), (65485, 16), (65510, 16)
  ]
  const AC_LUMINANCE_ROW12: seq<byte> := [
    0x09, 0x0a, 0x16, 0x17, 0x18, 0x19, 0x1a, 0x25, 0x26, 0x27, 0x28, 0x29, 0x2a, 0x34, 0x35, 0x36, 0x37, 0x38, 0x39,
    0x3a, 0x43, 0x44, 0x45, 0x46, 0x47
  ]
  const AC_LUMINANCE_ROW13: seq<byte> := [
    0x48, 0x49, 0x4a, 0x53, 0x54, 0x55, 0x56, 0x57, 0x58, 0x59, 0x5a, 0x63, 0x64, 0x65, 0x66, 0x67, 0x68, 0x69, 0x6a,
    0x73, 0x74, 0x75, 0x76, 0x77, 0x78
  ]
  const AC_LUMINANCE_ROW14: seq<byte> := [
    0x79, 0x7a, 0x83, 0x84, 0x85, 0x86, 0x87, 0x88, 0x89, 0x8a, 0x92, 0x93, 0x94, 0x95, 0x96, 0x97, 0x98, 0x99, 0x9a,
    0xa2, 0xa3, 0xa4, 0xa5, 0xa6, 0xa7
  ]
  const AC_LUMINANCE_ROW15: seq<byte> := [
    0xa8, 0xa9, 0xaa, 0xb2, 0xb3, 0xb4, 0xb5, 0xb6, 0xb7, 0xb8, 0xb9, 0xba, 0xc2, 0xc3, 0xc4, 0xc5, 0xc6, 0xc7, 0xc8,
    0xc9, 0xca, 0xd2, 0xd3, 0xd4, 0xd5
  ]
  const AC_LUMINANCE_ROW16: seq<byte> := [
    0xd6, 0xd7, 0xd8, 0xd9, 0xda, 0xe1, 0xe2, 0xe3, 0xe4, 0xe5, 0xe6, 0xe7, 0xe8, 0xe9, 0xea, 0xf1, 0xf2, 0xf3, 0xf4,
    0xf5, 0xf6, 0xf7, 0xf8, 0xf9, 0xfa
  ]
  const AC_LUMINANCE_ROWS: seq<seq<byte>> := [
    [0x01, 0x02], [0x03], [0x00, 0x04, 0x11], [0x05, 0x12, 0x21], [0x31, 0x41], [0x06, 0x13, 0x51, 0x61],
    [0x07, 0x22, 0x71], [0x14, 0x32, 0x81, 0x91, 0xa1], [0x08, 0x23, 0x42, 0xb1, 0xc1], [0x15, 0x52, 0xd1, 0xf0],
    [0x24, 0x33, 0x62, 0x72], [0x82], AC_LUMINANCE_ROW12, AC_LUMINANCE_ROW13, AC_LUMINANCE_ROW14, AC_LUMINANCE_ROW15,
    AC_LUMINANCE_ROW16
  ]
  const AC_LUMINANCE_RUNS: seq<seq<(nat, nat)>> := [
    [(10, 4), (0, 2), (1, 2), (4, 3), (11, 4), (26, 5), (120, 7), (248, 8), (1014, 10), (65410, 16), (65411, 16),
     (0, 0), (0, 0), (0, 0), (0, 0), (0, 0)],
    [(0, 0), (12, 4), (27, 5), (121, 7), (502, 9), (2038, 11), (65412, 16), (65413, 16), (65414, 16), (65415, 16),
     (65416, 16), (0, 0), (0, 0), (0, 0), (0, 0), (0, 0)],
    [(0, 0), (28, 5), (249, 8), (1015, 10), (4084, 12), (65417, 16), (65418, 16), (65419, 16), (65420, 16),
     (65421, 16), (65422, 16), (0, 0), (0, 0), (0, 0), (0, 0), (0, 0)],
    [(0, 0), (58, 6), (503, 9), (4085, 12), (65423, 16), (65424, 16), (65425, 16), (65426, 16), (65427, 16),
     (65428, 16), (65429, 16), (0, 0), (0, 0), (0, 0), (0, 0), (0, 0)],
    [(0, 0), (59, 6), (1016, 10), (65430, 16), (65431, 16), (65432, 16), (65433, 16), (65434, 16), (65435, 16),
     (65436, 16), (65437, 16), (0, 0), (0, 0), (0, 0), (0, 0), (0, 0)],
    [(0, 0), (122, 7), (2039, 11), (65438, 16), (65439, 16), (65440, 16), (65441, 16), (65442, 16), (65443, 16),
     (65444, 16), (65445, 16), (0, 0), (0, 0), (0, 0), (0, 0), (0, 0)],
    [(0, 0), (123, 7), (4086, 12), (65446, 16), (65447, 16), (65448, 16), (65449, 16), (65450, 16), (65451, 16),
     (65452, 16), (65453, 16), (0, 0), (0, 0), (0, 0), (0, 0), (0, 0)],
    [(0, 0), (250, 8), (4087, 12), (65454, 16), (65455, 16), (65456, 16), (65457, 16), (65458, 16), (65459, 16),
     (65460, 16), (65461, 16), (0, 0), (0, 0), (0, 0), (0, 0), (0, 0)],
    [(0, 0), (504, 9), (32704, 15), (65462, 16), (65463, 16), (65464, 16), (65465, 16), (65466, 16), (65467, 16),
     (65468, 16), (65469, 16), (0, 0), (0, 0), (0, 0), (0, 0), (0, 0)],
    [(0, 0), (505, 9), (65470, 16), (65471, 16), (65472, 16), (65473, 16), (65474, 16), (65475, 16), (65476, 16),
     (65477, 16), (65478, 16), (0, 0), (0, 0), (0, 0), (0, 0), (0, 0)],
    [(0, 0), (506, 9), (65479, 16), (65480, 16), (65481, 16), (65482, 16), (65483, 16), (65484, 16), (65485, 16),
     (65486, 16), (65487, 16), (0, 0), (0, 0), (0, 0), (0, 0), (0, 0)],
    [(0, 0), (1017, 10), (65488, 16), (65489, 16), (65490, 16), (65491, 16), (65492, 16), (65493, 16), (65494, 16),
     (65495, 16), (65496, 16), (0, 0), (0, 0), (0, 0), (0, 0), (0, 0)],
    [(0, 0), (1018, 10), (65497, 16), (65498, 16), (65499, 16), (65500, 16), (65501, 16), (65502, 16), (65503, 16),
     (65504, 16), (65505, 16), (0, 0), (0, 0), (0, 0), (0, 0), (0, 0)],
    [(0, 0), (2040, 11), (65506, 16), (65507, 16), (65508, 16), (65509, 16), (65510, 16), (65511, 16), (65512, 16),
     (65513, 16), (65514, 16), (0, 0), (0, 0), (0, 0), (0, 0), (0, 0)],
    [(0, 0), (65515, 16), (65516, 16), (65517, 16), (65518, 16), (65519, 16), (65520, 16), (65521, 16), (65522, 16),
     (65523, 16), (65524, 16), (0, 0), (0, 0), (0, 0), (0, 0), (0, 0)],
    [(2041, 11), (65525, 16), (65526, 16), (65527, 16), (65528, 16), (65529, 16), (65530, 16), (65531, 16),
     (65532, 16), (65533, 16), (65534, 16), (0, 0), (0, 0), (0, 0), (0, 0), (0, 0)]
  ]
  const AC_LUMINANCE: Standard := Standard(
    AC_LUMINANCE_COUNT, AC_LUMINANCE_ROWS, AC_LUMINANCE_CODES, AC_LUMINANCE_RUNS,
    AC_LUMINANCE_OFFSETS, AC_LUMINANCE_STARTS, AC_LUMINANCE_FIRSTS)

  lemma {:induction false} AcLuminanceCounted()
    ensures Counted(AC_LUMINANCE) && FitsBits(AC_LUMINANCE.count, AC_LUMINANCE.firsts)
  {
    hide StartsUp, FirstsUp, FitsBits, OffsetsUp, Begins, Ends, InStep;
    AcLuminanceStarts();
    AcLuminanceFirsts();
    AcLuminanceOffsets();
    AcLuminanceBegins();
    AcLuminanceEnds();
    AcLuminanceInStep();
  }

  lemma {:induction false} AcLuminanceStarts()
    ensures StartsUp(AC_LUMINANCE_COUNT, AC_LUMINANCE_STARTS)
  {
  }

  lemma {:induction false} AcLuminanceFirsts()
    ensures FirstsUp(AC_LUMINANCE_COUNT, AC_LUMINANCE_FIRSTS) && FitsBits(AC_LUMINANCE_COUNT, AC_LUMINANCE_FIRSTS)
  {
    Pow2Values();
  }

  lemma {:induction false} AcLuminanceOffsets()
    ensures OffsetsUp(AC_LUMINANCE_ROWS, AC_LUMINANCE_OFFSETS)
  {
  }

  lemma {:induction false} AcLuminanceBeginsEarly()
    ensures forall k :: 0 <= k < 6 ==> 1 <= AC_LUMINANCE_CODES[k].1 <= 16 && AC_LUMINANCE_STARTS[AC_LUMINANCE_CODES[k].1 - 1] <= AC_LUMINANCE_OFFSETS[k]
  {
  }

  lemma {:induction false} AcLuminanceBeginsMiddle()
    ensures forall k :: 6 <= k < 12 ==> 1 <= AC_LUMINANCE_CODES[k].1 <= 16 && AC_LUMINANCE_STARTS[AC_LUMINANCE_CODES[k].1 - 1] <= AC_LUMINANCE_OFFSETS[k]
  {
  }

  lemma {:induction false} AcLuminanceBeginsLate()
    ensures forall k :: 12 <= k < 17 ==> 1 <= AC_LUMINANCE_CODES[k].1 <= 16 && AC_LUMINANCE_STARTS[AC_LUMINANCE_CODES[k].1 - 1] <= AC_LUMINANCE_OFFSETS[k]
  {
  }

  lemma {:induction false} AcLuminanceBegins()
    ensures Begins(AC_LUMINANCE_CODES, AC_LUMINANCE_OFFSETS, AC_LUMINANCE_STARTS)
  {
    AcLuminanceBeginsEarly();
    AcLuminanceBeginsMiddle();
    AcLuminanceBeginsLate();
  }

  lemma {:induction false} AcLuminanceEndsEarly()
    ensures forall k :: 0 <= k < 6 ==> AC_LUMINANCE_CODES[k].1 <= 16 && AC_LUMINANCE_OFFSETS[k + 1] <= AC_LUMINANCE_STARTS[AC_LUMINANCE_CODES[k].1]
  {
  }

  lemma {:induction false} AcLuminanceEndsMiddle()
    ensures forall k :: 6 <= k < 12 ==> AC_LUMINANCE_CODES[k].1 <= 16 && AC_LUMINANCE_OFFSETS[k + 1] <= AC_LUMINANCE_STARTS[AC_LUMINANCE_CODES[k].1]
  {
  }

  lemma {:induction false} AcLuminanceEndsLate()
    ensures forall k :: 12 <= k < 17 ==> AC_LUMINANCE_CODES[k].1 <= 16 && AC_LUMINANCE_OFFSETS[k + 1] <= AC_LUMINANCE_STARTS[AC_LUMINANCE_CODES[k].1]
  {
  }

  lemma {:induction false} AcLuminanceEnds()
    ensures Ends(AC_LUMINANCE_CODES, AC_LUMINANCE_OFFSETS, AC_LUMINANCE_STARTS)
  {
    AcLuminanceEndsEarly();
    AcLuminanceEndsMiddle();
    AcLuminanceEndsLate();
  }

  lemma {:induction false} AcLuminanceInStep()
    ensures InStep(AC_LUMINANCE_CODES, AC_LUMINANCE_OFFSETS, AC_LUMINANCE_STARTS, AC_LUMINANCE_FIRSTS)
  {
  }

  lemma {:induction false} AcLuminanceRowsFrom0(k: nat)
    requires k < 4
    ensures forall j :: 0 <= j < |AC_LUMINANCE_ROWS[k]| ==>
      Entry(AC_LUMINANCE_RUNS, AC_LUMINANCE_ROWS[k][j]) == (AC_LUMINANCE_CODES[k].0 + j, AC_LUMINANCE_CODES[k].1)
  {
  }

  lemma {:induction false} AcLuminanceRow4()
    ensures forall j :: 0 <= j < |AC_LUMINANCE_ROWS[4]| ==>
      Entry(AC_LUMINANCE_RUNS, AC_LUMINANCE_ROWS[4][j]) == (AC_LUMINANCE_CODES[4].0 + j, AC_LUMINANCE_CODES[4].1)
  {
  }

  lemma {:induction false} AcLuminanceRow5()
    ensures forall j :: 0 <= j < |AC_LUMINANCE_ROWS[5]| ==>
      Entry(AC_LUMINANCE_RUNS, AC_LUMINANCE_ROWS[5][j]) == (AC_LUMINANCE_CODES[5].0 + j, AC_LUMINANCE_CODES[5].1)
  {
  }

  lemma {:induction false} AcLuminanceRowsFrom4(k: nat)
    requires 4 <= k < 6
    ensures forall j :: 0 <= j < |AC_LUMINANCE_ROWS[k]| ==>
      Entry(AC_LUMINANCE_RUNS, AC_LUMINANCE_ROWS[k][j]) == (AC_LUMINANCE_CODES[k].0 + j, AC_LUMINANCE_CODES[k].1)
  {
    hide Entry;
    if k == 4 { AcLuminanceRow4(); } else { AcLuminanceRow5(); }
  }

  lemma {:induction false} AcLuminanceRow6()
    ensures forall j :: 0 <= j < |AC_LUMINANCE_ROWS[6]| ==>
      Entry(AC_LUMINANCE_RUNS, AC_LUMINANCE_ROWS[6][j]) == (AC_LUMINANCE_CODES[6].0 + j, AC_LUMINANCE_CODES[6].1)
  {
  }

  lemma {:induction false} AcLuminanceRow7()
    ensures forall j :: 0 <= j < |AC_LUMINANCE_ROWS[7]| ==>
      Entry(AC_LUMINANCE_RUNS, AC_LUMINANCE_ROWS[7][j]) == (AC_LUMINANCE_CODES[7].0 + j, AC_LUMINANCE_CODES[7].1)
  {
  }

  lemma {:induction false} AcLuminanceRowsFrom6(k: nat)
    requires 6 <= k < 8
    ensures forall j :: 0 <= j < |AC_LUMINANCE_ROWS[k]| ==>
      Entry(AC_LUMINANCE_RUNS, AC_LUMINANCE_ROWS[k][j]) == (AC_LUMINANCE_CODES[k].0 + j, AC_LUMINANCE_CODES[k].1)
  {
    hide Entry;
    if k == 6 { AcLuminanceRow6(); } else { AcLuminanceRow7(); }
  }

  lemma {:induction false} AcLuminanceRow8()
    ensures forall j :: 0 <= j < |AC_LUMINANCE_ROWS[8]| ==>
      Entry(AC_LUMINANCE_RUNS, AC_LUMINANCE_ROWS[8][j]) == (AC_LUMINANCE_CODES[8].0 + j, AC_LUMINANCE_CODES[8].1)
  {
  }

  lemma {:induction false} AcLuminanceRow9()
    ensures forall j :: 0 <= j < |AC_LUMINANCE_ROWS[9]| ==>
      Entry(AC_LUMINANCE_RUNS, AC_LUMINANCE_ROWS[9][j]) == (AC_LUMINANCE_CODES[9].0 + j, AC_LUMINANCE_CODES[9].1)
  {
  }

  lemma {:induction false} AcLuminanceRowsFrom8(k: nat)
    requires 8 <= k < 10
    ensures forall j :: 0 <= j < |AC_LUMINANCE_ROWS[k]| ==>
      Entry(AC_LUMINANCE_RUNS, AC_LUMINANCE_ROWS[k][j]) == (AC_LUMINANCE_CODES[k].0 + j, AC_LUMINANCE_CODES[k].1)
  {
    hide Entry;
    if k == 8 { AcLuminanceRow8(); } else { AcLuminanceRow9(); }
  }

  lemma {:induction false} AcLuminanceRow10()
    ensures forall j :: 0 <= j < |AC_LUMINANCE_ROWS[10]| ==>
      Entry(AC_LUMINANCE_RUNS, AC_LUMINANCE_ROWS[10][j]) == (AC_LUMINANCE_CODES[10].0 + j, AC_LUMINANCE_CODES[10].1)
  {
  }

  lemma {:induction false} AcLuminanceRow11()
    ensures forall j :: 0 <= j < |AC_LUMINANCE_ROWS[11]| ==>
      Entry(AC_LUMINANCE_RUNS, AC_LUMINANCE_ROWS[11][j]) == (AC_LUMINANCE_CODES[11].0 + j, AC_LUMINANCE_CODES[11].1)
  {
  }

  lemma {:induction false} AcLuminanceRowsFrom10(k: nat)
    requires 10 <= k < 12
    ensures forall j :: 0 <= j < |AC_LUMINANCE_ROWS[k]| ==>
      Entry(AC_LUMINANCE_RUNS, AC_LUMINANCE_ROWS[k][j]) == (AC_LUMINANCE_CODES[k].0 + j, AC_LUMINANCE_CODES[k].1)
  {
    hide Entry;
    if k == 10 { AcLuminanceRow10(); } else { AcLuminanceRow11(); }
  }

  lemma {:induction false} AcLuminanceRow12Low()
    ensures |AC_LUMINANCE_ROW12| == 25 && forall j :: 0 <= j < 13 ==>
      Entry(AC_LUMINANCE_RUNS, AC_LUMINANCE_ROW12[j]) == (65410 + j, 16)
  {
  }

  lemma {:induction false} AcLuminanceRow12High()
    ensures |AC_LUMINANCE_ROW12| == 25 && forall j :: 13 <= j < 25 ==>
      Entry(AC_LUMINANCE_RUNS, AC_LUMINANCE_ROW12[j]) == (65410 + j, 16)
  {
  }

  lemma {:induction false} AcLuminanceRow12()
    ensures |AC_LUMINANCE_ROW12| == 25 && forall j :: 0 <= j < 25 ==>
      Entry(AC_LUMINANCE_RUNS, AC_LUMINANCE_ROW12[j]) == (65410 + j, 16)
  {
    hide Entry;
    AcLuminanceRow12Low();
    AcLuminanceRow12High();
  }

  lemma {:induction false} AcLuminanceRow13Low()
    ensures |AC_LUMINANCE_ROW13| == 25 && forall j :: 0 <= j < 13 ==>
      Entry(AC_LUMINANCE_RUNS, AC_LUMINANCE_ROW13[j]) == (65435 + j, 16)
  {
  }

  lemma {:induction false} AcLuminanceRow13High()
    ensures |AC_LUMINANCE_ROW13| == 25 && forall j :: 13 <= j < 25 ==>
      Entry(AC_LUMINANCE_RUNS, AC_LUMINANCE_ROW13[j]) == (65435 + j, 16)
  {
  }

  lemma {:induction false} AcLuminanceRow13()
    ensures |AC_LUMINANCE_ROW13| == 25 && forall j :: 0 <= j < 25 ==>
      Entry(AC_LUMINANCE_RUNS, AC_LUMINANCE_ROW13[j]) == (65435 + j, 16)
  {
    hide Entry;
    AcLuminanceRow13Low();
    AcLuminanceRow13High();
  }

  lemma {:induction false} AcLuminanceRow14Low()
    ensures |AC_LUMINANCE_ROW14| == 25 && forall j :: 0 <= j < 13 ==>
      Entry(AC_LUMINANCE_RUNS, AC_LUMINANCE_ROW14[j]) == (65460 + j, 16)
  {
  }

  lemma {:induction false} AcLuminanceRow14High()
    ensures |AC_LUMINANCE_ROW14| == 25 && forall j :: 13 <= j < 25 ==>
      Entry(AC_LUMINANCE_RUNS, AC_LUMINANCE_ROW14[j]) == (65460 + j, 16)
  {
  }

  lemma {:induction false} AcLuminanceRow14()
    ensures |AC_LUMINANCE_ROW14| == 25 && forall j :: 0 <= j < 25 ==>
      Entry(AC_LUMINANCE_RUNS, AC_LUMINANCE_ROW14[j]) == (65460 + j, 16)
  {
    hide Entry;
    AcLuminanceRow14Low();
    AcLuminanceRow14High();
  }

  lemma {:induction false} AcLuminanceRow15Low()
    ensures |AC_LUMINANCE_ROW15| == 25 && forall j :: 0 <= j < 13 ==>
      Entry(AC_LUMINANCE_RUNS, AC_LUMINANCE_ROW15[j]) == (65485 + j, 16)
  {
  }

  lemma {:induction false} AcLuminanceRow15High()
    ensures |AC_LUMINANCE_ROW15| == 25 && forall j :: 13 <= j < 25 ==>
      Entry(AC_LUMINANCE_RUNS, AC_LUMINANCE_ROW15[j]) == (65485 + j, 16)
  {
  }

  lemma {:induction false} AcLuminanceRow15()
    ensures |AC_LUMINANCE_ROW15| == 25 && forall j :: 0 <= j < 25 ==>
      Entry(AC_LUMINANCE_RUNS, AC_LUMINANCE_ROW15[j]) == (65485 + j, 16)
  {
    hide Entry;
    AcLuminanceRow15Low();
    AcLuminanceRow15High();
  }

  lemma {:induction false} AcLuminanceRow16Low()
    ensures |AC_LUMINANCE_ROW16| == 25 && forall j :: 0 <= j < 13 ==>
      Entry(AC_LUMINANCE_RUNS, AC_LUMINANCE_ROW16[j]) == (65510 + j, 16)
  {
  }

  lemma {:induction false} AcLuminanceRow16High()
    ensures |AC_LUMINANCE_ROW16| == 25 && forall j :: 13 <= j < 25 ==>
      Entry(AC_LUMINANCE_RUNS, AC_LUMINANCE_ROW16[j]) == (65510 + j, 16)
  {
  }

  lemma {:induction false} AcLuminanceRow16()
    ensures |AC_LUMINANCE_ROW16| == 25 && forall j :: 0 <= j < 25 ==>
      Entry(AC_LUMINANCE_RUNS, AC_LUMINANCE_ROW16[j]) == (65510 + j, 16)
  {
    hide Entry;
    AcLuminanceRow16Low();
    AcLuminanceRow16High();
  }

  lemma {:induction false} AcLuminanceShortSymbols(k: nat)
    requires k < 12
    ensures forall j :: 0 <= j < |AC_LUMINANCE_ROWS[k]| ==> IsAcSymbol(AC_LUMINANCE_ROWS[k][j])
  {
  }

  lemma {:induction false} AcLuminanceSymbols()
    ensures forall j :: 0 <= j < |AC_LUMINANCE_ROW12| ==> IsAcSymbol(AC_LUMINANCE_ROW12[j])
    ensures forall j :: 0 <= j < |AC_LUMINANCE_ROW13| ==> IsAcSymbol(AC_LUMINANCE_ROW13[j])
    ensures forall j :: 0 <= j < |AC_LUMINANCE_ROW14| ==> IsAcSymbol(AC_LUMINANCE_ROW14[j])
  {
  }

  lemma {:induction false} AcLuminanceMoreSymbols()
    ensures forall j :: 0 <= j < |AC_LUMINANCE_ROW15| ==> IsAcSymbol(AC_LUMINANCE_ROW15[j])
    ensures forall j :: 0 <= j < |AC_LUMINANCE_ROW16| ==> IsAcSymbol(AC_LUMINANCE_ROW16[j])
  {
  }

  lemma {:induction false} AcLuminanceLongRow(k: nat)
    requires 12 <= k < 17
    ensures RowRight(AC_LUMINANCE_RUNS, AC_LUMINANCE_ROWS[k], AC_LUMINANCE_CODES[k].0, AC_LUMINANCE_CODES[k].1)
  {
    hide Entry, RowRight;
    match k
    case 12 => AcLuminanceRow12(); RowIsRight(AC_LUMINANCE_RUNS, AC_LUMINANCE_ROW12, 25, 65410, 16);
    case 13 => AcLuminanceRow13(); RowIsRight(AC_LUMINANCE_RUNS, AC_LUMINANCE_ROW13, 25, 65435, 16);
    case 14 => AcLuminanceRow14(); RowIsRight(AC_LUMINANCE_RUNS, AC_LUMINANCE_ROW14, 25, 65460, 16);
    case 15 => AcLuminanceRow15(); RowIsRight(AC_LUMINANCE_RUNS, AC_LUMINANCE_ROW15, 25, 65485, 16);
    case _ => AcLuminanceRow16(); RowIsRight(AC_LUMINANCE_RUNS, AC_LUMINANCE_ROW16, 25, 65510, 16);
  }

  lemma {:induction false} AcLuminanceRowsRight()
    ensures RowsRight(AC_LUMINANCE)
  {
    hide Entry, RowRight;
    assert |AC_LUMINANCE_ROWS| == |AC_LUMINANCE_CODES| == 17;
    forall k: nat | k < 17
      ensures RowRight(AC_LUMINANCE_RUNS, AC_LUMINANCE_ROWS[k], AC_LUMINANCE_CODES[k].0, AC_LUMINANCE_CODES[k].1)
    {
      if k < 4 {
        AcLuminanceRowsFrom0(k);
        RowIsRight(AC_LUMINANCE_RUNS, AC_LUMINANCE_ROWS[k], |AC_LUMINANCE_ROWS[k]|,
                   AC_LUMINANCE_CODES[k].0, AC_LUMINANCE_CODES[k].1);
      } else if k < 6 {
        AcLuminanceRowsFrom4(k);
        RowIsRight(AC_LUMINANCE_RUNS, AC_LUMINANCE_ROWS[k], |AC_LUMINANCE_ROWS[k]|,
                   AC_LUMINANCE_CODES[k].0, AC_LUMINANCE_CODES[k].1);
      } else if k < 8 {
        AcLuminanceRowsFrom6(k);
        RowIsRight(AC_LUMINANCE_RUNS, AC_LUMINANCE_ROWS[k], |AC_LUMINANCE_ROWS[k]|,
                   AC_LUMINANCE_CODES[k].0, AC_LUMINANCE_CODES[k].1);
      } else if k < 10 {
        AcLuminanceRowsFrom8(k);
        RowIsRight(AC_LUMINANCE_RUNS, AC_LUMINANCE_ROWS[k], |AC_LUMINANCE_ROWS[k]|,
                   AC_LUMINANCE_CODES[k].0, AC_LUMINANCE_CODES[k].1);
      } else if k < 12 {
        AcLuminanceRowsFrom10(k);
        RowIsRight(AC_LUMINANCE_RUNS, AC_LUMINANCE_ROWS[k], |AC_LUMINANCE_ROWS[k]|,
                   AC_LUMINANCE_CODES[k].0, AC_LUMINANCE_CODES[k].1);
      } else {
        AcLuminanceLongRow(k);
      }
    }
  }

  lemma {:induction false} AcLuminanceElements()
    ensures forall k, j :: 0 <= k < |AC_LUMINANCE_ROWS| && 0 <= j < |AC_LUMINANCE_ROWS[k]| ==>
      AC_LUMINANCE_ROWS[k][j] in AcSymbols()
  {
    hide HasCategory, IsAcSymbol;
    forall k: nat, j: nat | k < |AC_LUMINANCE_ROWS| && j < |AC_LUMINANCE_ROWS[k]|
      ensures IsAcSymbol(AC_LUMINANCE_ROWS[k][j])
    {
      if k < 12 {
        AcLuminanceShortSymbols(k);
      } else {
        AcLuminanceLongSymbols(k, j);
      }
    }
  }

  lemma {:induction false} AcLuminanceLongSymbols(k: nat, j: nat)
    requires 12 <= k < 17 && j < |AC_LUMINANCE_ROWS[k]|
    ensures IsAcSymbol(AC_LUMINANCE_ROWS[k][j])
  {
    hide HasCategory, IsAcSymbol;
    AcLuminanceSymbols();
    AcLuminanceMoreSymbols();
  }

  lemma {:induction false} AcLuminanceCovers()
    ensures Covers(AC_LUMINANCE, AcSymbols())
  {
    hide StartsUp, FirstsUp, FitsBits, OffsetsUp, Begins, Ends, InStep, RowRight, IsAcSymbol, AcSymbols, DcSymbols;
    AcLuminanceCounted();
    AcLuminanceRowsRight();
    assert AC_LUMINANCE_STARTS[16] == 162;
    AcLuminanceElements();
    AcSymbolCount();
  }

  // ---- The AC chrominance code ----

  const AC_CHROMINANCE_COUNT: seq<nat> := [0, 2, 1, 2, 4, 4, 3, 4, 7, 5, 4, 4, 0, 1, 2, 119]
  const AC_CHROMINANCE_STARTS: seq<nat> := [0, 0, 2, 3, 5, 9, 13, 16, 20, 27, 32, 36, 40, 40, 41, 43, 162]
  const AC_CHROMINANCE_FIRSTS: seq<nat> := [
    0, 0, 4, 10, 24, 56, 120, 246, 500, 1014, 2038, 4084, 8176, 16352, 32706, 65416, 131070
  ]
  const AC_CHROMINANCE_OFFSETS: seq<nat> := [0, 2, 3, 5, 9, 13, 16, 20, 27, 32, 36, 40, 41, 43, 67, 91, 115, 139, 162]
  const AC_CHROMINANCE_CODES: seq<(nat, nat)> := [
    (0, 2), (4, 3), (10, 4), (24, 5), (56, 6), (120, 7), (246, 8), (500, 9), (1014, 10), (2038, 11), (4084, 12),
    (16352, 14), (32706, 15), (65416, 16), (65440, 16), (65464, 16), (65488, 16), (65512, 16)
  ]
  const AC_CHROMINANCE_ROW13: seq<byte> := [
    0x17, 0x18, 0x19, 0x1a, 0x26, 0x27, 0x28, 0x29, 0x2a, 0x35, 0x36, 0x37, 0x38, 0x39, 0x3a, 0x43, 0x44, 0x45, 0x46,
    0x47, 0x48, 0x49, 0x4a, 0x53
  ]
  const AC_CHROMINANCE_ROW14: seq<byte> := [
    0x54, 0x55, 0x56, 0x57, 0x58, 0x59, 0x5a, 0x63, 0x64, 0x65, 0x66, 0x67, 0x68, 0x69, 0x6a, 0x73, 0x74, 0x75, 0x76,
    0x77, 0x78, 0x79, 0x7a, 0x82
  ]
  const AC_CHROMINANCE_ROW15: seq<byte> := [
    0x83, 0x84, 0x85, 0x86, 0x87, 0x88, 0x89, 0x8a, 0x92, 0x93, 0x94, 0x95, 0x96, 0x97, 0x98, 0x99, 0x9a, 0xa2, 0xa3,
    0xa4, 0xa5, 0xa6, 0xa7, 0xa8
  ]
  const AC_CHROMINANCE_ROW16: seq<byte> := [
    0xa9, 0xaa, 0xb2, 0xb3, 0xb4, 0xb5, 0xb6, 0xb7, 0xb8, 0xb9, 0xba, 0xc2, 0xc3, 0xc4, 0xc5, 0xc6, 0xc7, 0xc8, 0xc9,
    0xca, 0xd2, 0xd3, 0xd4, 0xd5
  ]
  const AC_CHROMINANCE_ROW17: seq<byte> := [
    0xd6, 0xd7, 0xd8, 0xd9, 0xda, 0xe2, 0xe3, 0xe4, 0xe5, 0xe6, 0xe7, 0xe8, 0xe9, 0xea, 0xf2, 0xf3, 0xf4, 0xf5, 0xf6,
    0xf7, 0xf8, 0xf9, 0xfa
  ]
  const AC_CHROMINANCE_ROWS: seq<seq<byte>> := [
    [0x00, 0x01], [0x02], [0x03, 0x11], [0x04, 0x05, 0x21, 0x31], [0x06, 0x12, 0x41, 0x51], [0x07, 0x61, 0x71],
    [0x13, 0x22, 0x32, 0x81], [0x08, 0x14, 0x42, 0x91, 0xa1, 0xb1, 0xc1], [0x09, 0x23, 0x33, 0x52, 0xf0],
    [0x15, 0x62, 0x72, 0xd1], [0x0a, 0x16, 0x24, 0x34], [0xe1], [0x25, 0xf1], AC_CHROMINANCE_ROW13,
    AC_CHROMINANCE_ROW14, AC_CHROMINANCE_ROW15, AC_CHROMINANCE_ROW16, AC_CHROMINANCE_ROW17
  ]
  const AC_CHROMINANCE_RUNS: seq<seq<(nat, nat)>> := [
    [(0, 2), (1, 2), (4, 3), (10, 4), (24, 5), (25, 5), (56, 6), (120, 7), (500, 9), (1014, 10), (4084, 12), (0, 0),
     (0, 0), (0, 0), (0, 0), (0, 0)],
    [(0, 0), (11, 4), (57, 6), (246, 8), (501, 9), (2038, 11), (4085, 12), (65416, 16), (65417, 16), (65418, 16),
     (65419, 16), (0, 0), (0, 0), (0, 0), (0, 0), (0, 0)],
    [(0, 0), (26, 5), (247, 8), (1015, 10), (4086, 12), (32706, 15), (65420, 16), (65421, 16), (65422, 16),
     (65423, 16), (65424, 16), (0, 0), (0, 0), (0, 0), (0, 0), (0, 0)],
    [(0, 0), (27, 5), (248, 8), (1016, 10), (4087, 12), (65425, 16), (65426, 16), (65427, 16), (65428, 16),
     (65429, 16), (65430, 16), (0, 0), (0, 0), (0, 0), (0, 0), (0, 0)],
    [(0, 0), (58, 6), (502, 9), (65431, 16), (65432, 16), (65433, 16), (65434, 16), (65435, 16), (65436, 16),
     (65437, 16), (65438, 16), (0, 0), (0, 0), (0, 0), (0, 0), (0, 0)],
    [(0, 0), (59, 6), (1017, 10), (65439, 16), (65440, 16), (65441, 16), (65442, 16), (65443, 16), (65444, 16),
     (65445, 16), (65446, 16), (0, 0), (0, 0), (0, 0), (0, 0), (0, 0)],
    [(0, 0), (121, 7), (2039, 11), (65447, 16), (65448, 16), (65449, 16), (65450, 16), (65451, 16), (65452, 16),
     (65453, 16), (65454, 16), (0, 0), (0, 0), (0, 0), (0, 0), (0, 0)],
    [(0, 0), (122, 7), (2040, 11), (65455, 16), (65456, 16), (65457, 16), (65458, 16), (65459, 16), (65460, 16),
     (65461, 16), (65462, 16), (0, 0), (0, 0), (0, 0), (0, 0), (0, 0)],
    [(0, 0), (249, 8), (65463, 16), (65464, 16), (65465, 16), (65466, 16), (65467, 16), (65468, 16), (65469, 16),
     (65470, 16), (65471, 16), (0, 0), (0, 0), (0, 0), (0, 0), (0, 0)],
    [(0, 0), (503, 9), (65472, 16), (65473, 16), (65474, 16), (65475, 16), (65476, 16), (65477, 16), (65478, 16),
     (65479, 16), (65480, 16), (0, 0), (0, 0), (0, 0), (0, 0), (0, 0)],
    [(0, 0), (504, 9), (65481, 16), (65482, 16), (65483, 16), (65484, 16), (65485, 16), (65486, 16), (65487, 16),
     (65488, 16), (65489, 16), (0, 0), (0, 0), (0, 0), (0, 0), (0, 0)],
    [(0, 0), (505, 9), (65490, 16), (65491, 16), (65492, 16), (65493, 16), (65494, 16), (65495, 16), (65496, 16),
     (65497, 16), (65498, 16), (0, 0), (0, 0), (0, 0), (0, 0), (0, 0)],
    [(0, 0), (506, 9), (65499, 16), (65500, 16), (65501, 16), (65502, 16), (65503, 16), (65504, 16), (65505, 16),
     (65506, 16), (65507, 16), (0, 0), (0, 0), (0, 0), (0, 0), (0, 0)],
    [(0, 0), (2041, 11), (65508, 16), (65509, 16), (65510, 16), (65511, 16), (65512, 16), (65513, 16), (65514, 16),
     (65515, 16), (65516, 16), (0, 0), (0, 0), (0, 0), (0, 0), (0, 0)],
    [(0, 0), (16352, 14), (65517, 16), (65518, 16), (65519, 16), (65520, 16), (65521, 16), (65522, 16), (65523, 16),
     (65524, 16), (65525, 16), (0, 0), (0, 0), (0, 0), (0, 0), (0, 0)],
    [(1018, 10), (32707, 15), (65526, 16), (65527, 16), (65528, 16), (65529, 16), (65530, 16), (65531, 16),
     (65532, 16), (65533, 16), (65534, 16), (0, 0), (0, 0), (0, 0), (0, 0), (0, 0)]
  ]
  const AC_CHROMINANCE: Standard := Standard(
    AC_CHROMINANCE_COUNT, AC_CHROMINANCE_ROWS, AC_CHROMINANCE_CODES, AC_CHROMINANCE_RUNS,
    AC_CHROMINANCE_OFFSETS, AC_CHROMINANCE_STARTS, AC_CHROMINANCE_FIRSTS)

  lemma {:induction false} AcChrominanceCounted()
    ensures Counted(AC_CHROMINANCE) && FitsBits(AC_CHROMINANCE.count, AC_CHROMINANCE.firsts)
  {
    hide StartsUp, FirstsUp, FitsBits, OffsetsUp, Begins, Ends, InStep;
    AcChrominanceStarts();
    AcChrominanceFirsts();
    AcChrominanceOffsets();
    AcChrominanceBegins();
    AcChrominanceEnds();
    AcChrominanceInStep();
  }

  lemma {:induction false} AcChrominanceStarts()
    ensures StartsUp(AC_CHROMINANCE_COUNT, AC_CHROMINANCE_STARTS)
  {
  }

  lemma {:induction false} AcChrominanceFirsts()
    ensures FirstsUp(AC_CHROMINANCE_COUNT, AC_CHROMINANCE_FIRSTS) && FitsBits(AC_CHROMINANCE_COUNT, AC_CHROMINANCE_FIRSTS)
  {
    Pow2Values();
  }

  lemma {:induction false} AcChrominanceOffsets()
    ensures OffsetsUp(AC_CHROMINANCE_ROWS, AC_CHROMINANCE_OFFSETS)
  {
  }

  lemma {:induction false} AcChrominanceBeginsEarly()
    ensures forall k :: 0 <= k < 6 ==> 1 <= AC_CHROMINANCE_CODES[k].1 <= 16 && AC_CHROMINANCE_STARTS[AC_CHROMINANCE_CODES[k].1 - 1] <= AC_CHROMINANCE_OFFSETS[k]
  {
  }

  lemma {:induction false} AcChrominanceBeginsMiddle()
    ensures forall k :: 6 <= k < 12 ==> 1 <= AC_CHROMINANCE_CODES[k].1 <= 16 && AC_CHROMINANCE_STARTS[AC_CHROMINANCE_CODES[k].1 - 1] <= AC_CHROMINANCE_OFFSETS[k]
  {
  }

  lemma {:induction false} AcChrominanceBeginsLate()
    ensures forall k :: 12 <= k < 17 ==> 1 <= AC_CHROMINANCE_CODES[k].1 <= 16 && AC_CHROMINANCE_STARTS[AC_CHROMINANCE_CODES[k].1 - 1] <= AC_CHROMINANCE_OFFSETS[k]
  {
  }

  lemma {:induction false} AcChrominanceBegins()
    ensures Begins(AC_CHROMINANCE_CODES, AC_CHROMINANCE_OFFSETS, AC_CHROMINANCE_STARTS)
  {
    AcChrominanceBeginsEarly();
    AcChrominanceBeginsMiddle();
    AcChrominanceBeginsLate();
  }

  lemma {:induction false} AcChrominanceEndsEarly()
    ensures forall k :: 0 <= k < 6 ==> AC_CHROMINANCE_CODES[k].1 <= 16 && AC_CHROMINANCE_OFFSETS[k + 1] <= AC_CHROMINANCE_STARTS[AC_CHROMINANCE_CODES[k].1]
  {
  }

  lemma {:induction false} AcChrominanceEndsMiddle()
    ensures forall k :: 6 <= k < 12 ==> AC_CHROMINANCE_CODES[k].1 <= 16 && AC_CHROMINANCE_OFFSETS[k + 1] <= AC_CHROMINANCE_STARTS[AC_CHROMINANCE_CODES[k].1]
  {
  }

  lemma {:induction false} AcChrominanceEndsLate()
    ensures forall k :: 12 <= k < 17 ==> AC_CHROMINANCE_CODES[k].1 <= 16 && AC_CHROMINANCE_OFFSETS[k + 1] <= AC_CHROMINANCE_STARTS[AC_CHROMINANCE_CODES[k].1]
  {
  }

  lemma {:induction false} AcChrominanceEnds()
    ensures Ends(AC_CHROMINANCE_CODES, AC_CHROMINANCE_OFFSETS, AC_CHROMINANCE_STARTS)
  {
    AcChrominanceEndsEarly();
    AcChrominanceEndsMiddle();
    AcChrominanceEndsLate();
  }

  lemma {:induction false} AcChrominanceInStep()
    ensures InStep(AC_CHROMINANCE_CODES, AC_CHROMINANCE_OFFSETS, AC_CHROMINANCE_STARTS, AC_CHROMINANCE_FIRSTS)
  {
  }

  lemma {:induction false} AcChrominanceRowsFrom0(k: nat)
    requires k < 4
    ensures forall j :: 0 <= j < |AC_CHROMINANCE_ROWS[k]| ==>
      Entry(AC_CHROMINANCE_RUNS, AC_CHROMINANCE_ROWS[k][j])
      == (AC_CHROMINANCE_CODES[k].0 + j, AC_CHROMINANCE_CODES[k].1)
  {
  }

  lemma {:induction false} AcChrominanceRow4()
    ensures forall j :: 0 <= j < |AC_CHROMINANCE_ROWS[4]| ==>
      Entry(AC_CHROMINANCE_RUNS, AC_CHROMINANCE_ROWS[4][j]) == (AC_CHROMINANCE_CODES[4].0 + j, AC_CHROMINANCE_CODES[4].1)
  {
  }

  lemma {:induction false} AcChrominanceRow5()
    ensures forall j :: 0 <= j < |AC_CHROMINANCE_ROWS[5]| ==>
      Entry(AC_CHROMINANCE_RUNS, AC_CHROMINANCE_ROWS[5][j]) == (AC_CHROMINANCE_CODES[5].0 + j, AC_CHROMINANCE_CODES[5].1)
  {
  }

  lemma {:induction false} AcChrominanceRowsFrom4(k: nat)
    requires 4 <= k < 6
    ensures forall j :: 0 <= j < |AC_CHROMINANCE_ROWS[k]| ==>
      Entry(AC_CHROMINANCE_RUNS, AC_CHROMINANCE_ROWS[k][j])
      == (AC_CHROMINANCE_CODES[k].0 + j, AC_CHROMINANCE_CODES[k].1)
  {
    hide Entry;
    if k == 4 { AcChrominanceRow4(); } else { AcChrominanceRow5(); }
  }

  lemma {:induction false} AcChrominanceRow6()
    ensures forall j :: 0 <= j < |AC_CHROMINANCE_ROWS[6]| ==>
      Entry(AC_CHROMINANCE_RUNS, AC_CHROMINANCE_ROWS[6][j]) == (AC_CHROMINANCE_CODES[6].0 + j, AC_CHROMINANCE_CODES[6].1)
  {
  }

  lemma {:induction false} AcChrominanceRow7()
    ensures forall j :: 0 <= j < |AC_CHROMINANCE_ROWS[7]| ==>
      Entry(AC_CHROMINANCE_RUNS, AC_CHROMINANCE_ROWS[7][j]) == (AC_CHROMINANCE_CODES[7].0 + j, AC_CHROMINANCE_CODES[7].1)
  {
  }

  lemma {:induction false} AcChrominanceRowsFrom6(k: nat)
    requires 6 <= k < 8
    ensures forall j :: 0 <= j < |AC_CHROMINANCE_ROWS[k]| ==>
      Entry(AC_CHROMINANCE_RUNS, AC_CHROMINANCE_ROWS[k][j])
      == (AC_CHROMINANCE_CODES[k].0 + j, AC_CHROMINANCE_CODES[k].1)
  {
    hide Entry;
    if k == 6 { AcChrominanceRow6(); } else { AcChrominanceRow7(); }
  }

  lemma {:induction false} AcChrominanceRow8()
    ensures forall j :: 0 <= j < |AC_CHROMINANCE_ROWS[8]| ==>
      Entry(AC_CHROMINANCE_RUNS, AC_CHROMINANCE_ROWS[8][j]) == (AC_CHROMINANCE_CODES[8].0 + j, AC_CHROMINANCE_CODES[8].1)
  {
  }

  lemma {:induction false} AcChrominanceRow9()
    ensures forall j :: 0 <= j < |AC_CHROMINANCE_ROWS[9]| ==>
      Entry(AC_CHROMINANCE_RUNS, AC_CHROMINANCE_ROWS[9][j]) == (AC_CHROMINANCE_CODES[9].0 + j, AC_CHROMINANCE_CODES[9].1)
  {
  }

  lemma {:induction false} AcChrominanceRowsFrom8(k: nat)
    requires 8 <= k < 10
    ensures forall j :: 0 <= j < |AC_CHROMINANCE_ROWS[k]| ==>
      Entry(AC_CHROMINANCE_RUNS, AC_CHROMINANCE_ROWS[k][j])
      == (AC_CHROMINANCE_CODES[k].0 + j, AC_CHROMINANCE_CODES[k].1)
  {
    hide Entry;
    if k == 8 { AcChrominanceRow8(); } else { AcChrominanceRow9(); }
  }

  lemma {:induction false} AcChrominanceRowsFrom10(k: nat)
    requires 10 <= k < 13
    ensures forall j :: 0 <= j < |AC_CHROMINANCE_ROWS[k]| ==>
      Entry(AC_CHROMINANCE_RUNS, AC_CHROMINANCE_ROWS[k][j])
      == (AC_CHROMINANCE_CODES[k].0 + j, AC_CHROMINANCE_CODES[k].1)
  {
  }

  lemma {:induction false} AcChrominanceRow13Low()
    ensures |AC_CHROMINANCE_ROW13| == 24 && forall j :: 0 <= j < 12 ==>
      Entry(AC_CHROMINANCE_RUNS, AC_CHROMINANCE_ROW13[j]) == (65416 + j, 16)
  {
  }

  lemma {:induction false} AcChrominanceRow13High()
    ensures |AC_CHROMINANCE_ROW13| == 24 && forall j :: 12 <= j < 24 ==>
      Entry(AC_CHROMINANCE_RUNS, AC_CHROMINANCE_ROW13[j]) == (65416 + j, 16)
  {
  }

  lemma {:induction false} AcChrominanceRow13()
    ensures |AC_CHROMINANCE_ROW13| == 24 && forall j :: 0 <= j < 24 ==>
      Entry(AC_CHROMINANCE_RUNS, AC_CHROMINANCE_ROW13[j]) == (65416 + j, 16)
  {
    hide Entry;
    AcChrominanceRow13Low();
    AcChrominanceRow13High();
  }

  lemma {:induction false} AcChrominanceRow14Low()
    ensures |AC_CHROMINANCE_ROW14| == 24 && forall j :: 0 <= j < 12 ==>
      Entry(AC_CHROMINANCE_RUNS, AC_CHROMINANCE_ROW14[j]) == (65440 + j, 16)
  {
  }

  lemma {:induction false} AcChrominanceRow14High()
    ensures |AC_CHROMINANCE_ROW14| == 24 && forall j :: 12 <= j < 24 ==>
      Entry(AC_CHROMINANCE_RUNS, AC_CHROMINANCE_ROW14[j]) == (65440 + j, 16)
  {
  }

  lemma {:induction false} AcChrominanceRow14()
    ensures |AC_CHROMINANCE_ROW14| == 24 && forall j :: 0 <= j < 24 ==>
      Entry(AC_CHROMINANCE_RUNS, AC_CHROMINANCE_ROW14[j]) == (65440 + j, 16)
  {
    hide Entry;
    AcChrominanceRow14Low();
    AcChrominanceRow14High();
  }

  lemma {:induction false} AcChrominanceRow15Low()
    ensures |AC_CHROMINANCE_ROW15| == 24 && forall j :: 0 <= j < 12 ==>
      Entry(AC_CHROMINANCE_RUNS, AC_CHROMINANCE_ROW15[j]) == (65464 + j, 16)
  {
  }

  lemma {:induction false} AcChrominanceRow15High()
    ensures |AC_CHROMINANCE_ROW15| == 24 && forall j :: 12 <= j < 24 ==>
      Entry(AC_CHROMINANCE_RUNS, AC_CHROMINANCE_ROW15[j]) == (65464 + j, 16)
  {
  }

  lemma {:induction false} AcChrominanceRow15()
    ensures |AC_CHROMINANCE_ROW15| == 24 && forall j :: 0 <= j < 24 ==>
      Entry(AC_CHROMINANCE_RUNS, AC_CHROMINANCE_ROW15[j]) == (65464 + j, 16)
  {
    hide Entry;
    AcChrominanceRow15Low();
    AcChrominanceRow15High();
  }

  lemma {:induction false} AcChrominanceRow16Low()
    ensures |AC_CHROMINANCE_ROW16| == 24 && forall j :: 0 <= j < 12 ==>
      Entry(AC_CHROMINANCE_RUNS, AC_CHROMINANCE_ROW16[j]) == (65488 + j, 16)
  {
  }

  lemma {:induction false} AcChrominanceRow16High()
    ensures |AC_CHROMINANCE_ROW16| == 24 && forall j :: 12 <= j < 24 ==>
      Entry(AC_CHROMINANCE_RUNS, AC_CHROMINANCE_ROW16[j]) == (65488 + j, 16)
  {
  }

  lemma {:induction false} AcChrominanceRow16()
    ensures |AC_CHROMINANCE_ROW16| == 24 && forall j :: 0 <= j < 24 ==>
      Entry(AC_CHROMINANCE_RUNS, AC_CHROMINANCE_ROW16[j]) == (65488 + j, 16)
  {
    hide Entry;
    AcChrominanceRow16Low();
    AcChrominanceRow16High();
  }

  lemma {:induction false} AcChrominanceRow17Low()
    ensures |AC_CHROMINANCE_ROW17| == 23 && forall j :: 0 <= j < 12 ==>
      Entry(AC_CHROMINANCE_RUNS, AC_CHROMINANCE_ROW17[j]) == (65512 + j, 16)
  {
  }

  lemma {:induction false} AcChrominanceRow17High()
    ensures |AC_CHROMINANCE_ROW17| == 23 && forall j :: 12 <= j < 23 ==>
      Entry(AC_CHROMINANCE_RUNS, AC_CHROMINANCE_ROW17[j]) == (65512 + j, 16)
  {
  }

  lemma {:induction false} AcChrominanceRow17()
    ensures |AC_CHROMINANCE_ROW17| == 23 && forall j :: 0 <= j < 23 ==>
      Entry(AC_CHROMINANCE_RUNS, AC_CHROMINANCE_ROW17[j]) == (65512 + j, 16)
  {
    hide Entry;
    AcChrominanceRow17Low();
    AcChrominanceRow17High();
  }

  lemma {:induction false} AcChrominanceShortSymbols(k: nat)
    requires k < 13
    ensures forall j :: 0 <= j < |AC_CHROMINANCE_ROWS[k]| ==> IsAcSymbol(AC_CHROMINANCE_ROWS[k][j])
  {
  }

  lemma {:induction false} AcChrominanceSymbols()
    ensures forall j :: 0 <= j < |AC_CHROMINANCE_ROW13| ==> IsAcSymbol(AC_CHROMINANCE_ROW13[j])
    ensures forall j :: 0 <= j < |AC_CHROMINANCE_ROW14| ==> IsAcSymbol(AC_CHROMINANCE_ROW14[j])
    ensures forall j :: 0 <= j < |AC_CHROMINANCE_ROW15| ==> IsAcSymbol(AC_CHROMINANCE_ROW15[j])
  {
  }

  lemma {:induction false} AcChrominanceMoreSymbols()
    ensures forall j :: 0 <= j < |AC_CHROMINANCE_ROW16| ==> IsAcSymbol(AC_CHROMINANCE_ROW16[j])
    ensures forall j :: 0 <= j < |AC_CHROMINANCE_ROW17| ==> IsAcSymbol(AC_CHROMINANCE_ROW17[j])
  {
  }

  lemma {:induction false} AcChrominanceLongRow(k: nat)
    requires 13 <= k < 18
    ensures RowRight(AC_CHROMINANCE_RUNS, AC_CHROMINANCE_ROWS[k], AC_CHROMINANCE_CODES[k].0, AC_CHROMINANCE_CODES[k].1)
  {
    hide Entry, RowRight;
    match k
    case 13 => AcChrominanceRow13(); RowIsRight(AC_CHROMINANCE_RUNS, AC_CHROMINANCE_ROW13, 24, 65416, 16);
    case 14 => AcChrominanceRow14(); RowIsRight(AC_CHROMINANCE_RUNS, AC_CHROMINANCE_ROW14, 24, 65440, 16);
    case 15 => AcChrominanceRow15(); RowIsRight(AC_CHROMINANCE_RUNS, AC_CHROMINANCE_ROW15, 24, 65464, 16);
    case 16 => AcChrominanceRow16(); RowIsRight(AC_CHROMINANCE_RUNS, AC_CHROMINANCE_ROW16, 24, 65488, 16);
    case _ => AcChrominanceRow17(); RowIsRight(AC_CHROMINANCE_RUNS, AC_CHROMINANCE_ROW17, 23, 65512, 16);
  }

  lemma {:induction false} AcChrominanceRowsRight()
    ensures RowsRight(AC_CHROMINANCE)
  {
    hide Entry, RowRight;
    assert |AC_CHROMINANCE_ROWS| == |AC_CHROMINANCE_CODES| == 18;
    forall k: nat | k < 18
      ensures RowRight(AC_CHROMINANCE_RUNS, AC_CHROMINANCE_ROWS[k], AC_CHROMINANCE_CODES[k].0, AC_CHROMINANCE_CODES[k].1)
    {
      if k < 4 {
        AcChrominanceRowsFrom0(k);
        RowIsRight(AC_CHROMINANCE_RUNS, AC_CHROMINANCE_ROWS[k], |AC_CHROMINANCE_ROWS[k]|,
                   AC_CHROMINANCE_CODES[k].0, AC_CHROMINANCE_CODES[k].1);
      } else if k < 6 {
        AcChrominanceRowsFrom4(k);
        RowIsRight(AC_CHROMINANCE_RUNS, AC_CHROMINANCE_ROWS[k], |AC_CHROMINANCE_ROWS[k]|,
                   AC_CHROMINANCE_CODES[k].0, AC_CHROMINANCE_CODES[k].1);
      } else if k < 8 {
        AcChrominanceRowsFrom6(k);
        RowIsRight(AC_CHROMINANCE_RUNS, AC_CHROMINANCE_ROWS[k], |AC_CHROMINANCE_ROWS[k]|,
                   AC_CHROMINANCE_CODES[k].0, AC_CHROMINANCE_CODES[k].1);
      } else if k < 10 {
        AcChrominanceRowsFrom8(k);
        RowIsRight(AC_CHROMINANCE_RUNS, AC_CHROMINANCE_ROWS[k], |AC_CHROMINANCE_ROWS[k]|,
                   AC_CHROMINANCE_CODES[k].0, AC_CHROMINANCE_CODES[k].1);
      } else if k < 13 {
        AcChrominanceRowsFrom10(k);
        RowIsRight(AC_CHROMINANCE_RUNS, AC_CHROMINANCE_ROWS[k], |AC_CHROMINANCE_ROWS[k]|,
                   AC_CHROMINANCE_CODES[k].0, AC_CHROMINANCE_CODES[k].1);
      } else {
        AcChrominanceLongRow(k);
      }
    }
  }

  lemma {:induction false} AcChrominanceElements()
    ensures forall k, j :: 0 <= k < |AC_CHROMINANCE_ROWS| && 0 <= j < |AC_CHROMINANCE_ROWS[k]| ==>
      AC_CHROMINANCE_ROWS[k][j] in AcSymbols()
  {
    hide HasCategory, IsAcSymbol;
    forall k: nat, j: nat | k < |AC_CHROMINANCE_ROWS| && j < |AC_CHROMINANCE_ROWS[k]|
      ensures IsAcSymbol(AC_CHROMINANCE_ROWS[k][j])
    {
      if k < 13 {
        AcChrominanceShortSymbols(k);
      } else {
        AcChrominanceLongSymbols(k, j);
      }
    }
  }

  lemma {:induction false} AcChrominanceLongSymbols(k: nat, j: nat)
    requires 13 <= k < 18 && j < |AC_CHROMINANCE_ROWS[k]|
    ensures IsAcSymbol(AC_CHROMINANCE_ROWS[k][j])
  {
    hide HasCategory, IsAcSymbol;
    AcChrominanceSymbols();
    AcChrominanceMoreSymbols();
  }

  lemma {:induction false} AcChrominanceCovers()
    ensures Covers(AC_CHROMINANCE, AcSymbols())
  {
    hide StartsUp, FirstsUp, FitsBits, OffsetsUp, Begins, Ends, InStep, RowRight, IsAcSymbol, AcSymbols, DcSymbols;
    AcChrominanceCounted();
    AcChrominanceRowsRight();
    assert AC_CHROMINANCE_STARTS[16] == 162;
    AcChrominanceElements();
    AcSymbolCount();
  }

  // ---- The whole ----

  /** With the writer's own tables, any block of coefficients in range is read back with the multiplier of each
      place, exactly when the DC product fits 16 bits. */
  method StandardRoundTrip(du: seq<int>, dc: int, chrominance: bool, dequant: seq<nat>)
    returns (ok: bool, data: array<int>, pred: int)
    requires Small(du) && Magnitude(du[0] - dc) <= 2047 && -32768 <= du[0] <= 32767 && |dequant| == 64
    ensures ok <==> IsShort(du[0] * dequant[0])
    ensures ok ==> Scaled(data[..], du, dequant) && pred == du[0]
  {
    hide Covers, Small, Scaled, Magnitude;
    BothCover(chrominance);
    ok, data, pred := RoundTripWith(du, dc, if chrominance then DC_CHROMINANCE else DC_LUMINANCE,
                                    if chrominance then AC_CHROMINANCE else AC_LUMINANCE, dequant);
  }

  lemma {:induction false} BothCover(chrominance: bool)
    ensures Covers(if chrominance then DC_CHROMINANCE else DC_LUMINANCE, DcSymbols())
    ensures Covers(if chrominance then AC_CHROMINANCE else AC_LUMINANCE, AcSymbols())
  {
    hide Covers;
    DcLuminanceCovers();
    DcChrominanceCovers();
    AcLuminanceCovers();
    AcChrominanceCovers();
  }
}
