/**
 The standard Huffman tables of jpge.cpp (section K.3 of ITU-T T.81) cover every symbol the encoder
 can need.
 */
module JpegTables {
  import opened Basics
  import opened BitStrings
  import opened JpegBits
  import opened JpegHuffman
  import opened JpegScan

  /** A run of zeros and the size of the coefficient after it. */
  datatype Symbol = S(run: nat, size: nat)

  /** s_dc_lum_bits */
  function DcLumaBits(): seq<nat> {
    [0, 0, 1, 5, 1, 1, 1, 1, 1, 1, 0, 0, 0, 0, 0, 0, 0]
  }

  /** s_ac_lum_bits */
  function AcLumaBits(): seq<nat> {
    [0, 0, 2, 1, 3, 3, 2, 4, 3, 5, 5, 4, 4, 0, 0, 1, 125]
  }

  /** s_dc_chroma_bits */
  function DcChromaBits(): seq<nat> {
    [0, 0, 3, 1, 1, 1, 1, 1, 1, 1, 1, 1, 0, 0, 0, 0, 0]
  }

  /** s_ac_chroma_bits */
  function AcChromaBits(): seq<nat> {
    [0, 0, 2, 1, 2, 4, 4, 3, 4, 7, 5, 4, 4, 0, 1, 2, 119]
  }

  /** s_ac_lum_val: the p-th symbol, as run length and size. */
  function AcLumaVal(p: nat): Symbol
    requires p < 162
  {
    match p / 16
    case 0 =>
      (match p % 16
       case 0 => S(0, 1) case 1 => S(0, 2) case 2 => S(0, 3) case 3 => S(0, 0)
       case 4 => S(0, 4) case 5 => S(1, 1) case 6 => S(0, 5) case 7 => S(1, 2)
       case 8 => S(2, 1) case 9 => S(3, 1) case 10 => S(4, 1) case 11 => S(0, 6)
       case 12 => S(1, 3) case 13 => S(5, 1) case 14 => S(6, 1) case _ => S(0, 7))
    case 1 =>
      (match p % 16
       case 0 => S(2, 2) case 1 => S(7, 1) case 2 => S(1, 4) case 3 => S(3, 2)
       case 4 => S(8, 1) case 5 => S(9, 1) case 6 => S(10, 1) case 7 => S(0, 8)
       case 8 => S(2, 3) case 9 => S(4, 2) case 10 => S(11, 1) case 11 => S(12, 1)
       case 12 => S(1, 5) case 13 => S(5, 2) case 14 => S(13, 1) case _ => S(15, 0))
    case 2 =>
      (match p % 16
       case 0 => S(2, 4) case 1 => S(3, 3) case 2 => S(6, 2) case 3 => S(7, 2)
       case 4 => S(8, 2) case 5 => S(0, 9) case 6 => S(0, 10) case 7 => S(1, 6)
       case 8 => S(1, 7) case 9 => S(1, 8) case 10 => S(1, 9) case 11 => S(1, 10)
       case 12 => S(2, 5) case 13 => S(2, 6) case 14 => S(2, 7) case _ => S(2, 8))
    case 3 =>
      (match p % 16
       case 0 => S(2, 9) case 1 => S(2, 10) case 2 => S(3, 4) case 3 => S(3, 5)
       case 4 => S(3, 6) case 5 => S(3, 7) case 6 => S(3, 8) case 7 => S(3, 9)
       case 8 => S(3, 10) case 9 => S(4, 3) case 10 => S(4, 4) case 11 => S(4, 5)
       case 12 => S(4, 6) case 13 => S(4, 7) case 14 => S(4, 8) case _ => S(4, 9))
    case 4 =>
      (match p % 16
       case 0 => S(4, 10) case 1 => S(5, 3) case 2 => S(5, 4) case 3 => S(5, 5)
       case 4 => S(5, 6) case 5 => S(5, 7) case 6 => S(5, 8) case 7 => S(5, 9)
       case 8 => S(5, 10) case 9 => S(6, 3) case 10 => S(6, 4) case 11 => S(6, 5)
       case 12 => S(6, 6) case 13 => S(6, 7) case 14 => S(6, 8) case _ => S(6, 9))
    case 5 =>
      (match p % 16
       case 0 => S(6, 10) case 1 => S(7, 3) case 2 => S(7, 4) case 3 => S(7, 5)
       case 4 => S(7, 6) case 5 => S(7, 7) case 6 => S(7, 8) case 7 => S(7, 9)
       case 8 => S(7, 10) case 9 => S(8, 3) case 10 => S(8, 4) case 11 => S(8, 5)
       case 12 => S(8, 6) case 13 => S(8, 7) case 14 => S(8, 8) case _ => S(8, 9))
    case 6 =>
      (match p % 16
       case 0 => S(8, 10) case 1 => S(9, 2) case 2 => S(9, 3) case 3 => S(9, 4)
       case 4 => S(9, 5) case 5 => S(9, 6) case 6 => S(9, 7) case 7 => S(9, 8)
       case 8 => S(9, 9) case 9 => S(9, 10) case 10 => S(10, 2) case 11 => S(10, 3)
       case 12 => S(10, 4) case 13 => S(10, 5) case 14 => S(10, 6) case _ => S(10, 7))
    case 7 =>
      (match p % 16
       case 0 => S(10, 8) case 1 => S(10, 9) case 2 => S(10, 10) case 3 => S(11, 2)
       case 4 => S(11, 3) case 5 => S(11, 4) case 6 => S(11, 5) case 7 => S(11, 6)
       case 8 => S(11, 7) case 9 => S(11, 8) case 10 => S(11, 9) case 11 => S(11, 10)
       case 12 => S(12, 2) case 13 => S(12, 3) case 14 => S(12, 4) case _ => S(12, 5))
    case 8 =>
      (match p % 16
       case 0 => S(12, 6) case 1 => S(12, 7) case 2 => S(12, 8) case 3 => S(12, 9)
       case 4 => S(12, 10) case 5 => S(13, 2) case 6 => S(13, 3) case 7 => S(13, 4)
       case 8 => S(13, 5) case 9 => S(13, 6) case 10 => S(13, 7) case 11 => S(13, 8)
       case 12 => S(13, 9) case 13 => S(13, 10) case 14 => S(14, 1) case _ => S(14, 2))
    case 9 =>
      (match p % 16
       case 0 => S(14, 3) case 1 => S(14, 4) case 2 => S(14, 5) case 3 => S(14, 6)
       case 4 => S(14, 7) case 5 => S(14, 8) case 6 => S(14, 9) case 7 => S(14, 10)
       case 8 => S(15, 1) case 9 => S(15, 2) case 10 => S(15, 3) case 11 => S(15, 4)
       case 12 => S(15, 5) case 13 => S(15, 6) case 14 => S(15, 7) case _ => S(15, 8))
    case _ =>
      (match p % 16
       case 0 => S(15, 9) case _ => S(15, 10))
  }

  /** Where s_ac_lum_val lists a symbol. */
  function AcLumaAt(r: nat, n: nat): nat
    requires r < 16 && 1 <= n <= 10
  {
    match r
    case 0 =>
      (match n
       case 1 => 0 case 2 => 1 case 3 => 2 case 4 => 4 case 5 => 6
       case 6 => 11 case 7 => 15 case 8 => 23 case 9 => 37 case _ => 38)
    case 1 =>
      (match n
       case 1 => 5 case 2 => 7 case 3 => 12 case 4 => 18 case 5 => 28
       case 6 => 39 case 7 => 40 case 8 => 41 case 9 => 42 case _ => 43)
    case 2 =>
      (match n
       case 1 => 8 case 2 => 16 case 3 => 24 case 4 => 32 case 5 => 44
       case 6 => 45 case 7 => 46 case 8 => 47 case 9 => 48 case _ => 49)
    case 3 =>
      (match n
       case 1 => 9 case 2 => 19 case 3 => 33 case 4 => 50 case 5 => 51
       case 6 => 52 case 7 => 53 case 8 => 54 case 9 => 55 case _ => 56)
    case 4 =>
      (match n
       case 1 => 10 case 2 => 25 case 3 => 57 case 4 => 58 case 5 => 59
       case 6 => 60 case 7 => 61 case 8 => 62 case 9 => 63 case _ => 64)
    case 5 =>
      (match n
       case 1 => 13 case 2 => 29 case 3 => 65 case 4 => 66 case 5 => 67
       case 6 => 68 case 7 => 69 case 8 => 70 case 9 => 71 case _ => 72)
    case 6 =>
      (match n
       case 1 => 14 case 2 => 34 case 3 => 73 case 4 => 74 case 5 => 75
       case 6 => 76 case 7 => 77 case 8 => 78 case 9 => 79 case _ => 80)
    case 7 =>
      (match n
       case 1 => 17 case 2 => 35 case 3 => 81 case 4 => 82 case 5 => 83
       case 6 => 84 case 7 => 85 case 8 => 86 case 9 => 87 case _ => 88)
    case 8 =>
      (match n
       case 1 => 20 case 2 => 36 case 3 => 89 case 4 => 90 case 5 => 91
       case 6 => 92 case 7 => 93 case 8 => 94 case 9 => 95 case _ => 96)
    case 9 =>
      (match n
       case 1 => 21 case 2 => 97 case 3 => 98 case 4 => 99 case 5 => 100
       case 6 => 101 case 7 => 102 case 8 => 103 case 9 => 104 case _ => 105)
    case 10 =>
      (match n
       case 1 => 22 case 2 => 106 case 3 => 107 case 4 => 108 case 5 => 109
       case 6 => 110 case 7 => 111 case 8 => 112 case 9 => 113 case _ => 114)
    case 11 =>
      (match n
       case 1 => 26 case 2 => 115 case 3 => 116 case 4 => 117 case 5 => 118
       case 6 => 119 case 7 => 120 case 8 => 121 case 9 => 122 case _ => 123)
    case 12 =>
      (match n
       case 1 => 27 case 2 => 124 case 3 => 125 case 4 => 126 case 5 => 127
       case 6 => 128 case 7 => 129 case 8 => 130 case 9 => 131 case _ => 132)
    case 13 =>
      (match n
       case 1 => 30 case 2 => 133 case 3 => 134 case 4 => 135 case 5 => 136
       case 6 => 137 case 7 => 138 case 8 => 139 case 9 => 140 case _ => 141)
    case 14 =>
      (match n
       case 1 => 142 case 2 => 143 case 3 => 144 case 4 => 145 case 5 => 146
       case 6 => 147 case 7 => 148 case 8 => 149 case 9 => 150 case _ => 151)
    case _ =>
      (match n
       case 1 => 152 case 2 => 153 case 3 => 154 case 4 => 155 case 5 => 156
       case 6 => 157 case 7 => 158 case 8 => 159 case 9 => 160 case _ => 161)
  }

  /** s_ac_chroma_val: the p-th symbol, as run length and size. */
  function AcChromaVal(p: nat): Symbol
    requires p < 162
  {
    match p / 16
    case 0 =>
      (match p % 16
       case 0 => S(0, 0) case 1 => S(0, 1) case 2 => S(0, 2) case 3 => S(0, 3)
       case 4 => S(1, 1) case 5 => S(0, 4) case 6 => S(0, 5) case 7 => S(2, 1)
       case 8 => S(3, 1) case 9 => S(0, 6) case 10 => S(1, 2) case 11 => S(4, 1)
       case 12 => S(5, 1) case 13 => S(0, 7) case 14 => S(6, 1) case _ => S(7, 1))
    case 1 =>
      (match p % 16
       case 0 => S(1, 3) case 1 => S(2, 2) case 2 => S(3, 2) case 3 => S(8, 1)
       case 4 => S(0, 8) case 5 => S(1, 4) case 6 => S(4, 2) case 7 => S(9, 1)
       case 8 => S(10, 1) case 9 => S(11, 1) case 10 => S(12, 1) case 11 => S(0, 9)
       case 12 => S(2, 3) case 13 => S(3, 3) case 14 => S(5, 2) case _ => S(15, 0))
    case 2 =>
      (match p % 16
       case 0 => S(1, 5) case 1 => S(6, 2) case 2 => S(7, 2) case 3 => S(13, 1)
       case 4 => S(0, 10) case 5 => S(1, 6) case 6 => S(2, 4) case 7 => S(3, 4)
       case 8 => S(14, 1) case 9 => S(2, 5) case 10 => S(15, 1) case 11 => S(1, 7)
       case 12 => S(1, 8) case 13 => S(1, 9) case 14 => S(1, 10) case _ => S(2, 6))
    case 3 =>
      (match p % 16
       case 0 => S(2, 7) case 1 => S(2, 8) case 2 => S(2, 9) case 3 => S(2, 10)
       case 4 => S(3, 5) case 5 => S(3, 6) case 6 => S(3, 7) case 7 => S(3, 8)
       case 8 => S(3, 9) case 9 => S(3, 10) case 10 => S(4, 3) case 11 => S(4, 4)
       case 12 => S(4, 5) case 13 => S(4, 6) case 14 => S(4, 7) case _ => S(4, 8))
    case 4 =>
      (match p % 16
       case 0 => S(4, 9) case 1 => S(4, 10) case 2 => S(5, 3) case 3 => S(5, 4)
       case 4 => S(5, 5) case 5 => S(5, 6) case 6 => S(5, 7) case 7 => S(5, 8)
       case 8 => S(5, 9) case 9 => S(5, 10) case 10 => S(6, 3) case 11 => S(6, 4)
       case 12 => S(6, 5) case 13 => S(6, 6) case 14 => S(6, 7) case _ => S(6, 8))
    case 5 =>
      (match p % 16
       case 0 => S(6, 9) case 1 => S(6, 10) case 2 => S(7, 3) case 3 => S(7, 4)
       case 4 => S(7, 5) case 5 => S(7, 6) case 6 => S(7, 7) case 7 => S(7, 8)
       case 8 => S(7, 9) case 9 => S(7, 10) case 10 => S(8, 2) case 11 => S(8, 3)
       case 12 => S(8, 4) case 13 => S(8, 5) case 14 => S(8, 6) case _ => S(8, 7))
    case 6 =>
      (match p % 16
       case 0 => S(8, 8) case 1 => S(8, 9) case 2 => S(8, 10) case 3 => S(9, 2)
       case 4 => S(9, 3) case 5 => S(9, 4) case 6 => S(9, 5) case 7 => S(9, 6)
       case 8 => S(9, 7) case 9 => S(9, 8) case 10 => S(9, 9) case 11 => S(9, 10)
       case 12 => S(10, 2) case 13 => S(10, 3) case 14 => S(10, 4) case _ => S(10, 5))
    case 7 =>
      (match p % 16
       case 0 => S(10, 6) case 1 => S(10, 7) case 2 => S(10, 8) case 3 => S(10, 9)
       case 4 => S(10, 10) case 5 => S(11, 2) case 6 => S(11, 3) case 7 => S(11, 4)
       case 8 => S(11, 5) case 9 => S(11, 6) case 10 => S(11, 7) case 11 => S(11, 8)
       case 12 => S(11, 9) case 13 => S(11, 10) case 14 => S(12, 2) case _ => S(12, 3))
    case 8 =>
      (match p % 16
       case 0 => S(12, 4) case 1 => S(12, 5) case 2 => S(12, 6) case 3 => S(12, 7)
       case 4 => S(12, 8) case 5 => S(12, 9) case 6 => S(12, 10) case 7 => S(13, 2)
       case 8 => S(13, 3) case 9 => S(13, 4) case 10 => S(13, 5) case 11 => S(13, 6)
       case 12 => S(13, 7) case 13 => S(13, 8) case 14 => S(13, 9) case _ => S(13, 10))
    case 9 =>
      (match p % 16
       case 0 => S(14, 2) case 1 => S(14, 3) case 2 => S(14, 4) case 3 => S(14, 5)
       case 4 => S(14, 6) case 5 => S(14, 7) case 6 => S(14, 8) case 7 => S(14, 9)
       case 8 => S(14, 10) case 9 => S(15, 2) case 10 => S(15, 3) case 11 => S(15, 4)
       case 12 => S(15, 5) case 13 => S(15, 6) case 14 => S(15, 7) case _ => S(15, 8))
    case _ =>
      (match p % 16
       case 0 => S(15, 9) case _ => S(15, 10))
  }

  /** Where s_ac_chroma_val lists a symbol. */
  function AcChromaAt(r: nat, n: nat): nat
    requires r < 16 && 1 <= n <= 10
  {
    match r
    case 0 =>
      (match n
       case 1 => 1 case 2 => 2 case 3 => 3 case 4 => 5 case 5 => 6
       case 6 => 9 case 7 => 13 case 8 => 20 case 9 => 27 case _ => 36)
    case 1 =>
      (match n
       case 1 => 4 case 2 => 10 case 3 => 16 case 4 => 21 case 5 => 32
       case 6 => 37 case 7 => 43 case 8 => 44 case 9 => 45 case _ => 46)
    case 2 =>
      (match n
       case 1 => 7 case 2 => 17 case 3 => 28 case 4 => 38 case 5 => 41
       case 6 => 47 case 7 => 48 case 8 => 49 case 9 => 50 case _ => 51)
    case 3 =>
      (match n
       case 1 => 8 case 2 => 18 case 3 => 29 case 4 => 39 case 5 => 52
       case 6 => 53 case 7 => 54 case 8 => 55 case 9 => 56 case _ => 57)
    case 4 =>
      (match n
       case 1 => 11 case 2 => 22 case 3 => 58 case 4 => 59 case 5 => 60
       case 6 => 61 case 7 => 62 case 8 => 63 case 9 => 64 case _ => 65)
    case 5 =>
      (match n
       case 1 => 12 case 2 => 30 case 3 => 66 case 4 => 67 case 5 => 68
       case 6 => 69 case 7 => 70 case 8 => 71 case 9 => 72 case _ => 73)
    case 6 =>
      (match n
       case 1 => 14 case 2 => 33 case 3 => 74 case 4 => 75 case 5 => 76
       case 6 => 77 case 7 => 78 case 8 => 79 case 9 => 80 case _ => 81)
    case 7 =>
      (match n
       case 1 => 15 case 2 => 34 case 3 => 82 case 4 => 83 case 5 => 84
       case 6 => 85 case 7 => 86 case 8 => 87 case 9 => 88 case _ => 89)
    case 8 =>
      (match n
       case 1 => 19 case 2 => 90 case 3 => 91 case 4 => 92 case 5 => 93
       case 6 => 94 case 7 => 95 case 8 => 96 case 9 => 97 case _ => 98)
    case 9 =>
      (match n
       case 1 => 23 case 2 => 99 case 3 => 100 case 4 => 101 case 5 => 102
       case 6 => 103 case 7 => 104 case 8 => 105 case 9 => 106 case _ => 107)
    case 10 =>
      (match n
       case 1 => 24 case 2 => 108 case 3 => 109 case 4 => 110 case 5 => 111
       case 6 => 112 case 7 => 113 case 8 => 114 case 9 => 115 case _ => 116)
    case 11 =>
      (match n
       case 1 => 25 case 2 => 117 case 3 => 118 case 4 => 119 case 5 => 120
       case 6 => 121 case 7 => 122 case 8 => 123 case 9 => 124 case _ => 125)
    case 12 =>
      (match n
       case 1 => 26 case 2 => 126 case 3 => 127 case 4 => 128 case 5 => 129
       case 6 => 130 case 7 => 131 case 8 => 132 case 9 => 133 case _ => 134)
    case 13 =>
      (match n
       case 1 => 35 case 2 => 135 case 3 => 136 case 4 => 137 case 5 => 138
       case 6 => 139 case 7 => 140 case 8 => 141 case 9 => 142 case _ => 143)
    case 14 =>
      (match n
       case 1 => 40 case 2 => 144 case 3 => 145 case 4 => 146 case 5 => 147
       case 6 => 148 case 7 => 149 case 8 => 150 case 9 => 151 case _ => 152)
    case _ =>
      (match n
       case 1 => 42 case 2 => 153 case 3 => 154 case 4 => 155 case 5 => 156
       case 6 => 157 case 7 => 158 case 8 => 159 case 9 => 160 case _ => 161)
  }

  /** s_dc_lum_val and s_dc_chroma_val */
  function DcValues(): (v: seq<nat>)
    ensures |v| == 12 && forall p :: 0 <= p < 12 ==> v[p] == p
  {
    seq(12, p => p)
  }

  function AcLumaValues(): (v: seq<nat>)
    ensures |v| == 162 && forall p :: 0 <= p < 162 ==> v[p] == RunSize(AcLumaVal(p).run, AcLumaVal(p).size)
  {
    hide AcLumaVal;
    seq(162, p requires 0 <= p < 162 => RunSize(AcLumaVal(p).run, AcLumaVal(p).size))
  }

  function AcChromaValues(): (v: seq<nat>)
    ensures |v| == 162 && forall p :: 0 <= p < 162 ==> v[p] == RunSize(AcChromaVal(p).run, AcChromaVal(p).size)
  {
    hide AcChromaVal;
    seq(162, p requires 0 <= p < 162 => RunSize(AcChromaVal(p).run, AcChromaVal(p).size))
  }

  lemma AcLumaListed(r: nat, n: nat)
    requires r < 16 && 1 <= n <= 10
    ensures AcLumaAt(r, n) < 162 && AcLumaVal(AcLumaAt(r, n)) == S(r, n)
  {
  }

  lemma AcChromaListed(r: nat, n: nat)
    requires r < 16 && 1 <= n <= 10
    ensures AcChromaAt(r, n) < 162 && AcChromaVal(AcChromaAt(r, n)) == S(r, n)
  {
  }

  lemma AcLumaBytes(p: nat)
    requires p < 162
    ensures AcLumaVal(p).run < 16 && AcLumaVal(p).size < 16
  {
  }

  lemma AcChromaBytes(p: nat)
    requires p < 162
    ensures AcChromaVal(p).run < 16 && AcChromaVal(p).size < 16
  {
  }

  /** The number of codes no longer than `l`. */
  function Total(bits: seq<nat>, l: nat): nat
    requires l < |bits|
  {
    if l == 0 then 0 else Total(bits, l - 1) + bits[l]
  }

  lemma TotalNext(bits: seq<nat>, l: nat)
    requires l < |bits|
    ensures Total(bits, 0) == 0 && (l > 0 ==> Total(bits, l) == Total(bits, l - 1) + bits[l])
  {
  }

  lemma {:induction false} TotalIsCount(bits: seq<nat>, l: nat)
    requires l < |bits|
    ensures |Sizes(bits, l)| == Total(bits, l)
  {
    if l > 0 {
      TotalIsCount(bits, l - 1);
    }
  }

  lemma Shares()
    ensures Share(1) == 32768 && Share(2) == 16384 && Share(3) == 8192 && Share(4) == 4096
    ensures Share(5) == 2048 && Share(6) == 1024 && Share(7) == 512 && Share(8) == 256
    ensures Share(9) == 128 && Share(10) == 64 && Share(11) == 32 && Share(12) == 16
    ensures Share(13) == 8 && Share(14) == 4 && Share(15) == 2 && Share(16) == 1
  {
    Pow2Values();
  }

  lemma DcLumaBitsSum()
    ensures KraftSum(DcLumaBits(), 16) == 65408 && Total(DcLumaBits(), 16) == 12
  {
    Shares();
    hide Share;
    var b := DcLumaBits();
    assert KraftSum(b, 2) == 16384 && Total(b, 2) == 1;
    assert KraftSum(b, 4) == 61440 && Total(b, 4) == 7;
    assert KraftSum(b, 6) == 64512 && Total(b, 6) == 9;
    assert KraftSum(b, 8) == 65280 && Total(b, 8) == 11;
    assert KraftSum(b, 10) == 65408 && Total(b, 10) == 12;
    assert KraftSum(b, 12) == 65408 && Total(b, 12) == 12;
    assert KraftSum(b, 14) == 65408 && Total(b, 14) == 12;
  }

  lemma AcLumaBitsSum()
    ensures KraftSum(AcLumaBits(), 16) == 65535 && Total(AcLumaBits(), 16) == 162
  {
    Shares();
    hide Share;
    var b := AcLumaBits();
    assert KraftSum(b, 2) == 32768 && Total(b, 2) == 2;
    assert KraftSum(b, 4) == 53248 && Total(b, 4) == 6;
    assert KraftSum(b, 6) == 61440 && Total(b, 6) == 11;
    assert KraftSum(b, 8) == 64256 && Total(b, 8) == 18;
    assert KraftSum(b, 10) == 65216 && Total(b, 10) == 28;
    assert KraftSum(b, 12) == 65408 && Total(b, 12) == 36;
    assert KraftSum(b, 14) == 65408 && Total(b, 14) == 36;
  }

  lemma DcChromaBitsSum()
    ensures KraftSum(DcChromaBits(), 16) == 65504 && Total(DcChromaBits(), 16) == 12
  {
    Shares();
    hide Share;
    var b := DcChromaBits();
    assert KraftSum(b, 2) == 49152 && Total(b, 2) == 3;
    assert KraftSum(b, 4) == 61440 && Total(b, 4) == 5;
    assert KraftSum(b, 6) == 64512 && Total(b, 6) == 7;
    assert KraftSum(b, 8) == 65280 && Total(b, 8) == 9;
    assert KraftSum(b, 10) == 65472 && Total(b, 10) == 11;
    assert KraftSum(b, 12) == 65504 && Total(b, 12) == 12;
    assert KraftSum(b, 14) == 65504 && Total(b, 14) == 12;
  }

  lemma AcChromaBitsSum()
    ensures KraftSum(AcChromaBits(), 16) == 65535 && Total(AcChromaBits(), 16) == 162
  {
    Shares();
    hide Share;
    var b := AcChromaBits();
    assert KraftSum(b, 2) == 32768 && Total(b, 2) == 2;
    assert KraftSum(b, 4) == 49152 && Total(b, 4) == 5;
    assert KraftSum(b, 6) == 61440 && Total(b, 6) == 13;
    assert KraftSum(b, 8) == 64000 && Total(b, 8) == 20;
    assert KraftSum(b, 10) == 65216 && Total(b, 10) == 32;
    assert KraftSum(b, 12) == 65408 && Total(b, 12) == 40;
    assert KraftSum(b, 14) == 65412 && Total(b, 14) == 41;
  }

  /** What a pair of arrays `bits` and `val` must satisfy to be a Huffman table. */
  ghost predicate Proper(bits: seq<nat>, val: seq<nat>) {
    && Lengths(bits) && |Sizes(bits, 16)| == |val| && Kraft(Sizes(bits, 16))
    && forall p :: 0 <= p < |val| ==> val[p] < 256
  }

  lemma ProperFromSums(bits: seq<nat>, val: seq<nat>)
    requires |bits| == 17 && KraftSum(bits, 16) <= 65536 && Total(bits, 16) == |val| <= 256
    requires forall p :: 0 <= p < |val| ==> val[p] < 256
    ensures Proper(bits, val)
  {
    hide KraftSum, Total, Sizes, Space;
    Pow2Values();
    TotalIsCount(bits, 16);
    SpaceIsKraftSum(bits, 16);
    hide Pow2;
  }

  lemma AcValuesAreBytes(p: nat)
    requires p < 162
    ensures AcLumaValues()[p] < 256 && AcChromaValues()[p] < 256
  {
    hide AcLumaVal, AcChromaVal, AcLumaValues, AcChromaValues;
    AcLumaBytes(p);
    AcChromaBytes(p);
  }

  lemma AllProper()
    ensures Proper(DcLumaBits(), DcValues()) && Proper(AcLumaBits(), AcLumaValues())
    ensures Proper(DcChromaBits(), DcValues()) && Proper(AcChromaBits(), AcChromaValues())
  {
    hide KraftSum, Total, Proper, DcValues, AcLumaValues, AcChromaValues, AcLumaVal, AcChromaVal;
    DcLumaBitsSum();
    ProperFromSums(DcLumaBits(), DcValues());
    DcChromaBitsSum();
    ProperFromSums(DcChromaBits(), DcValues());
    AcLumaBitsSum();
    forall p | 0 <= p < 162
      ensures AcLumaValues()[p] < 256 && AcChromaValues()[p] < 256
    {
      AcValuesAreBytes(p);
    }
    ProperFromSums(AcLumaBits(), AcLumaValues());
    AcChromaBitsSum();
    ProperFromSums(AcChromaBits(), AcChromaValues());
  }

  /** A book lists the symbols of `val` in order. */
  predicate Lists(book: seq<Code>, val: seq<nat>) {
    |book| == |val| && forall p :: 0 <= p < |val| ==> book[p].symbol == val[p]
  }

  lemma DcCovered(book: seq<Code>)
    requires Lists(book, DcValues())
    ensures forall n :: 0 <= n <= 11 ==> Has(book, n)
  {
    hide DcValues;
    forall n | 0 <= n <= 11
      ensures Has(book, n)
    {
      assert book[n].symbol == n;
    }
  }

  lemma AcLumaCovered(book: seq<Code>)
    requires Lists(book, AcLumaValues())
    ensures CoversAc(book)
  {
    assert AcLumaVal(3) == S(0, 0) && AcLumaVal(31) == S(15, 0);
    hide AcLumaVal, AcLumaAt, AcLumaValues;
    assert book[3].symbol == 0 && book[31].symbol == 0xF0;
    forall run, n | 0 <= run < 16 && 1 <= n <= 10
      ensures Has(book, RunSize(run, n))
    {
      AcLumaListed(run, n);
      assert book[AcLumaAt(run, n)].symbol == RunSize(run, n);
    }
  }

  lemma AcChromaCovered(book: seq<Code>)
    requires Lists(book, AcChromaValues())
    ensures CoversAc(book)
  {
    assert AcChromaVal(0) == S(0, 0) && AcChromaVal(31) == S(15, 0);
    hide AcChromaVal, AcChromaAt, AcChromaValues;
    assert book[0].symbol == 0 && book[31].symbol == 0xF0;
    forall run, n | 0 <= run < 16 && 1 <= n <= 10
      ensures Has(book, RunSize(run, n))
    {
      AcChromaListed(run, n);
      assert book[AcChromaAt(run, n)].symbol == RunSize(run, n);
    }
  }

  // ----- tables and books

  /** One row of m_huff_codes and m_huff_code_sizes. */
  datatype HuffTable = HuffTable(codes: seq<nat>, sizes: seq<nat>)

  /** Every symbol of the book has a code of 1 to 16 bits in the table, and it is the book's word. */
  ghost predicate Holds(t: HuffTable, book: seq<Code>) {
    && |t.codes| == 256 && |t.sizes| == 256
    && forall s :: 0 <= s < 256 && Has(book, s) ==> HoldsSymbol(t, book, s)
  }

  ghost predicate HoldsSymbol(t: HuffTable, book: seq<Code>, s: nat)
    requires |t.codes| == 256 && |t.sizes| == 256 && s < 256 && Has(book, s)
  {
    1 <= t.sizes[s] <= 16 && t.codes[s] < Pow2(t.sizes[s]) && BitsOf(t.codes[s], t.sizes[s]) == Word(book, s)
  }

  /** Word is the last entry for the symbol. */
  lemma {:induction false} LastEntry(book: seq<Code>, symbol: nat) returns (p: nat)
    requires Has(book, symbol)
    ensures p < |book| && book[p] == Code(symbol, Word(book, symbol))
    ensures forall q :: p < q < |book| ==> book[q].symbol != symbol
  {
    if book[|book| - 1].symbol == symbol {
      p := |book| - 1;
    } else {
      assert Has(book[..|book| - 1], symbol);
      p := LastEntry(book[..|book| - 1], symbol);
    }
  }

  lemma SymbolHolds(t: HuffTable, sizes: seq<nat>, canonical: seq<nat>, val: seq<nat>, s: nat)
    requires |sizes| == |canonical| == |val| && TableOf(t.codes, t.sizes, sizes, canonical, val, |val|)
    requires forall p :: 0 <= p < |sizes| ==> 1 <= sizes[p] <= 16 && canonical[p] < Pow2(sizes[p])
    requires s < 256 && Has(Book(sizes, canonical, val), s)
    ensures HoldsSymbol(t, Book(sizes, canonical, val), s)
  {
    hide Pow2, BitsOf, Word, TableOf, Has;
    var book := Book(sizes, canonical, val);
    var p := LastEntry(book, s);
    assert book[p] == Code(val[p], BitsOf(canonical[p], sizes[p]));
    forall q | p < q < |val|
      ensures val[q] != s
    {
      assert val[q] == book[q].symbol;
    }
    LastInTable(t, sizes, canonical, val, s, p);
  }

  /** The table has the code of the last place where a symbol is listed. */
  lemma LastInTable(t: HuffTable, sizes: seq<nat>, canonical: seq<nat>, val: seq<nat>, s: nat, p: nat)
    requires |sizes| == |canonical| == |val| && TableOf(t.codes, t.sizes, sizes, canonical, val, |val|)
    requires s < 256 && p < |val| && val[p] == s && forall q :: p < q < |val| ==> val[q] != s
    ensures |t.codes| == |t.sizes| == 256 && t.codes[s] == canonical[p] && t.sizes[s] == sizes[p]
  {
  }

  /** What compute_huffman_table leaves behind agrees with the canonical book, which is prefix-free. */
  lemma TableHolds(t: HuffTable, bits: seq<nat>, val: seq<nat>, canonical: seq<nat>)
    requires Proper(bits, val) && Canonical(Sizes(bits, 16), canonical)
    requires TableOf(t.codes, t.sizes, Sizes(bits, 16), canonical, val, |val|)
    ensures var book := Book(Sizes(bits, 16), canonical, val);
      Holds(t, book) && PrefixFree(book) && Lists(book, val)
  {
    hide Sizes, Pow2, BitsOf, Space, IsCode, PrefixFree, HoldsSymbol, Has;
    var sizes := Sizes(bits, 16);
    var book := Book(sizes, canonical, val);
    CanonicalIsPrefixFree(sizes, canonical, val);
    CodesFitIffKraft(sizes, canonical);
    assert |t.codes| == 256 && |t.sizes| == 256;
    forall s | 0 <= s < 256 && Has(book, s)
      ensures HoldsSymbol(t, book, s)
    {
      SymbolHolds(t, sizes, canonical, val, s);
    }
  }

  /** The book that Annex C of ITU-T T.81 gives for the two lists. */
  ghost predicate IsBook(book: seq<Code>, bits: seq<nat>, val: seq<nat>) {
    && Proper(bits, val)
    && exists codes :: Canonical(Sizes(bits, 16), codes) && book == Book(Sizes(bits, 16), codes, val)
  }

  /** Canonical codes are unique, and so is the book. */
  lemma BookIsUnique(a: seq<Code>, b: seq<Code>, bits: seq<nat>, val: seq<nat>)
    requires IsBook(a, bits, val) && IsBook(b, bits, val)
    ensures a == b
  {
    hide Pow2, Space, BitsOf, Kraft, IsCode;
    var sizes := Sizes(bits, 16);
    var c, d :| Canonical(sizes, c) && a == Book(sizes, c, val) && Canonical(sizes, d) && b == Book(sizes, d, val);
    SameCodes(sizes, c, d);
  }

  lemma SameCodes(sizes: seq<nat>, c: seq<nat>, d: seq<nat>)
    requires Ordered(sizes) && Canonical(sizes, c) && Canonical(sizes, d)
    ensures c == d
  {
    hide Pow2, Space;
    forall p | 0 <= p < |sizes|
      ensures c[p] == d[p]
    {
      assert IsCode(sizes, p, c[p]) && IsCode(sizes, p, d[p]);
      OneCode(c[p], d[p], Share(sizes[p]));
    }
  }

  lemma OneCode(c: nat, d: nat, w: nat)
    requires w > 0 && c * w == d * w
    ensures c == d
  {
    Fits(c, d, w);
    Fits(d, c, w);
  }

  /** compute_huffman_table for one standard table. */
  method BuildTable(bits: seq<nat>, val: seq<nat>) returns (t: HuffTable, ghost book: seq<Code>)
    requires Proper(bits, val)
    ensures IsBook(book, bits, val) && Holds(t, book) && PrefixFree(book) && Lists(book, val)
  {
    hide PrefixFree, Canonical, Book, Kraft;
    var codes, sizes := new nat[256], new nat[256];
    ghost var canonical := ComputeHuffmanTable(codes, sizes, bits, val);
    t := HuffTable(codes[..], sizes[..]);
    book := Book(Sizes(bits, 16), canonical, val);
    TableHolds(t, bits, val, canonical);
  }
}
