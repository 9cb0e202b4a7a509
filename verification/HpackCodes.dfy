/**
 The code list in mkhufftbl.py, which is that of appendix B of RFC 7541: it is complete and
 prefix-free, so that the table generated from it decodes whatever is encoded with it.
 */
module HpackCodes {
  import opened Basics
  import opened BitStrings
  import opened HuffmanTree
  import opened NibbleTable
  import opened TableGenerator
  import opened CodeList

  /** A line of the list: how many bits, and the number that they spell. */
  datatype Line = L(nbits: nat, code: nat)

  /** HUFFMAN_CODE_TABLE, by symbol. */
  function Listed(k: nat): Line
    requires k < 257
  {
    match k / 16
    case 0 =>
      (match k % 16
       case 0 => L(13, 0x1ff8) case 1 => L(23, 0x7fffd8) case 2 => L(28, 0xfffffe2) case 3 => L(28, 0xfffffe3)
       case 4 => L(28, 0xfffffe4) case 5 => L(28, 0xfffffe5) case 6 => L(28, 0xfffffe6) case 7 => L(28, 0xfffffe7)
       case 8 => L(28, 0xfffffe8) case 9 => L(24, 0xffffea) case 10 => L(30, 0x3ffffffc) case 11 => L(28, 0xfffffe9)
       case 12 => L(28, 0xfffffea) case 13 => L(30, 0x3ffffffd) case 14 => L(28, 0xfffffeb) case _ => L(28, 0xfffffec))
    case 1 =>
      (match k % 16
       case 0 => L(28, 0xfffffed) case 1 => L(28, 0xfffffee) case 2 => L(28, 0xfffffef) case 3 => L(28, 0xffffff0)
       case 4 => L(28, 0xffffff1) case 5 => L(28, 0xffffff2) case 6 => L(30, 0x3ffffffe) case 7 => L(28, 0xffffff3)
       case 8 => L(28, 0xffffff4) case 9 => L(28, 0xffffff5) case 10 => L(28, 0xffffff6) case 11 => L(28, 0xffffff7)
       case 12 => L(28, 0xffffff8) case 13 => L(28, 0xffffff9) case 14 => L(28, 0xffffffa) case _ => L(28, 0xffffffb))
    case 2 =>
      (match k % 16
       case 0 => L(6, 0x14) case 1 => L(10, 0x3f8) case 2 => L(10, 0x3f9) case 3 => L(12, 0xffa)
       case 4 => L(13, 0x1ff9) case 5 => L(6, 0x15) case 6 => L(8, 0xf8) case 7 => L(11, 0x7fa)
       case 8 => L(10, 0x3fa) case 9 => L(10, 0x3fb) case 10 => L(8, 0xf9) case 11 => L(11, 0x7fb)
       case 12 => L(8, 0xfa) case 13 => L(6, 0x16) case 14 => L(6, 0x17) case _ => L(6, 0x18))
    case 3 =>
      (match k % 16
       case 0 => L(5, 0x0) case 1 => L(5, 0x1) case 2 => L(5, 0x2) case 3 => L(6, 0x19)
       case 4 => L(6, 0x1a) case 5 => L(6, 0x1b) case 6 => L(6, 0x1c) case 7 => L(6, 0x1d)
       case 8 => L(6, 0x1e) case 9 => L(6, 0x1f) case 10 => L(7, 0x5c) case 11 => L(8, 0xfb)
       case 12 => L(15, 0x7ffc) case 13 => L(6, 0x20) case 14 => L(12, 0xffb) case _ => L(10, 0x3fc))
    case 4 =>
      (match k % 16
       case 0 => L(13, 0x1ffa) case 1 => L(6, 0x21) case 2 => L(7, 0x5d) case 3 => L(7, 0x5e)
       case 4 => L(7, 0x5f) case 5 => L(7, 0x60) case 6 => L(7, 0x61) case 7 => L(7, 0x62)
       case 8 => L(7, 0x63) case 9 => L(7, 0x64) case 10 => L(7, 0x65) case 11 => L(7, 0x66)
       case 12 => L(7, 0x67) case 13 => L(7, 0x68) case 14 => L(7, 0x69) case _ => L(7, 0x6a))
    case 5 =>
      (match k % 16
       case 0 => L(7, 0x6b) case 1 => L(7, 0x6c) case 2 => L(7, 0x6d) case 3 => L(7, 0x6e)
       case 4 => L(7, 0x6f) case 5 => L(7, 0x70) case 6 => L(7, 0x71) case 7 => L(7, 0x72)
       case 8 => L(8, 0xfc) case 9 => L(7, 0x73) case 10 => L(8, 0xfd) case 11 => L(13, 0x1ffb)
       case 12 => L(19, 0x7fff0) case 13 => L(13, 0x1ffc) case 14 => L(14, 0x3ffc) case _ => L(6, 0x22))
    case 6 =>
      (match k % 16
       case 0 => L(15, 0x7ffd) case 1 => L(5, 0x3) case 2 => L(6, 0x23) case 3 => L(5, 0x4)
       case 4 => L(6, 0x24) case 5 => L(5, 0x5) case 6 => L(6, 0x25) case 7 => L(6, 0x26)
       case 8 => L(6, 0x27) case 9 => L(5, 0x6) case 10 => L(7, 0x74) case 11 => L(7, 0x75)
       case 12 => L(6, 0x28) case 13 => L(6, 0x29) case 14 => L(6, 0x2a) case _ => L(5, 0x7))
    case 7 =>
      (match k % 16
       case 0 => L(6, 0x2b) case 1 => L(7, 0x76) case 2 => L(6, 0x2c) case 3 => L(5, 0x8)
       case 4 => L(5, 0x9) case 5 => L(6, 0x2d) case 6 => L(7, 0x77) case 7 => L(7, 0x78)
       case 8 => L(7, 0x79) case 9 => L(7, 0x7a) case 10 => L(7, 0x7b) case 11 => L(15, 0x7ffe)
       case 12 => L(11, 0x7fc) case 13 => L(14, 0x3ffd) case 14 => L(13, 0x1ffd) case _ => L(28, 0xffffffc))
    case 8 =>
      (match k % 16
       case 0 => L(20, 0xfffe6) case 1 => L(22, 0x3fffd2) case 2 => L(20, 0xfffe7) case 3 => L(20, 0xfffe8)
       case 4 => L(22, 0x3fffd3) case 5 => L(22, 0x3fffd4) case 6 => L(22, 0x3fffd5) case 7 => L(23, 0x7fffd9)
       case 8 => L(22, 0x3fffd6) case 9 => L(23, 0x7fffda) case 10 => L(23, 0x7fffdb) case 11 => L(23, 0x7fffdc)
       case 12 => L(23, 0x7fffdd) case 13 => L(23, 0x7fffde) case 14 => L(24, 0xffffeb) case _ => L(23, 0x7fffdf))
    case 9 =>
      (match k % 16
       case 0 => L(24, 0xffffec) case 1 => L(24, 0xffffed) case 2 => L(22, 0x3fffd7) case 3 => L(23, 0x7fffe0)
       case 4 => L(24, 0xffffee) case 5 => L(23, 0x7fffe1) case 6 => L(23, 0x7fffe2) case 7 => L(23, 0x7fffe3)
       case 8 => L(23, 0x7fffe4) case 9 => L(21, 0x1fffdc) case 10 => L(22, 0x3fffd8) case 11 => L(23, 0x7fffe5)
       case 12 => L(22, 0x3fffd9) case 13 => L(23, 0x7fffe6) case 14 => L(23, 0x7fffe7) case _ => L(24, 0xffffef))
    case 10 =>
      (match k % 16
       case 0 => L(22, 0x3fffda) case 1 => L(21, 0x1fffdd) case 2 => L(20, 0xfffe9) case 3 => L(22, 0x3fffdb)
       case 4 => L(22, 0x3fffdc) case 5 => L(23, 0x7fffe8) case 6 => L(23, 0x7fffe9) case 7 => L(21, 0x1fffde)
       case 8 => L(23, 0x7fffea) case 9 => L(22, 0x3fffdd) case 10 => L(22, 0x3fffde) case 11 => L(24, 0xfffff0)
       case 12 => L(21, 0x1fffdf) case 13 => L(22, 0x3fffdf) case 14 => L(23, 0x7fffeb) case _ => L(23, 0x7fffec))
    case 11 =>
      (match k % 16
       case 0 => L(21, 0x1fffe0) case 1 => L(21, 0x1fffe1) case 2 => L(22, 0x3fffe0) case 3 => L(21, 0x1fffe2)
       case 4 => L(23, 0x7fffed) case 5 => L(22, 0x3fffe1) case 6 => L(23, 0x7fffee) case 7 => L(23, 0x7fffef)
       case 8 => L(20, 0xfffea) case 9 => L(22, 0x3fffe2) case 10 => L(22, 0x3fffe3) case 11 => L(22, 0x3fffe4)
       case 12 => L(23, 0x7ffff0) case 13 => L(22, 0x3fffe5) case 14 => L(22, 0x3fffe6) case _ => L(23, 0x7ffff1))
    case 12 =>
      (match k % 16
       case 0 => L(26, 0x3ffffe0) case 1 => L(26, 0x3ffffe1) case 2 => L(20, 0xfffeb) case 3 => L(19, 0x7fff1)
       case 4 => L(22, 0x3fffe7) case 5 => L(23, 0x7ffff2) case 6 => L(22, 0x3fffe8) case 7 => L(25, 0x1ffffec)
       case 8 => L(26, 0x3ffffe2) case 9 => L(26, 0x3ffffe3) case 10 => L(26, 0x3ffffe4) case 11 => L(27, 0x7ffffde)
       case 12 => L(27, 0x7ffffdf) case 13 => L(26, 0x3ffffe5) case 14 => L(24, 0xfffff1) case _ => L(25, 0x1ffffed))
    case 13 =>
      (match k % 16
       case 0 => L(19, 0x7fff2) case 1 => L(21, 0x1fffe3) case 2 => L(26, 0x3ffffe6) case 3 => L(27, 0x7ffffe0)
       case 4 => L(27, 0x7ffffe1) case 5 => L(26, 0x3ffffe7) case 6 => L(27, 0x7ffffe2) case 7 => L(24, 0xfffff2)
       case 8 => L(21, 0x1fffe4) case 9 => L(21, 0x1fffe5) case 10 => L(26, 0x3ffffe8) case 11 => L(26, 0x3ffffe9)
       case 12 => L(28, 0xffffffd) case 13 => L(27, 0x7ffffe3) case 14 => L(27, 0x7ffffe4) case _ => L(27, 0x7ffffe5))
    case 14 =>
      (match k % 16
       case 0 => L(20, 0xfffec) case 1 => L(24, 0xfffff3) case 2 => L(20, 0xfffed) case 3 => L(21, 0x1fffe6)
       case 4 => L(22, 0x3fffe9) case 5 => L(21, 0x1fffe7) case 6 => L(21, 0x1fffe8) case 7 => L(23, 0x7ffff3)
       case 8 => L(22, 0x3fffea) case 9 => L(22, 0x3fffeb) case 10 => L(25, 0x1ffffee) case 11 => L(25, 0x1ffffef)
       case 12 => L(24, 0xfffff4) case 13 => L(24, 0xfffff5) case 14 => L(26, 0x3ffffea) case _ => L(23, 0x7ffff4))
    case 15 =>
      (match k % 16
       case 0 => L(26, 0x3ffffeb) case 1 => L(27, 0x7ffffe6) case 2 => L(26, 0x3ffffec) case 3 => L(26, 0x3ffffed)
       case 4 => L(27, 0x7ffffe7) case 5 => L(27, 0x7ffffe8) case 6 => L(27, 0x7ffffe9) case 7 => L(27, 0x7ffffea)
       case 8 => L(27, 0x7ffffeb) case 9 => L(28, 0xffffffe) case 10 => L(27, 0x7ffffec) case 11 => L(27, 0x7ffffed)
       case 12 => L(27, 0x7ffffee) case 13 => L(27, 0x7ffffef) case 14 => L(27, 0x7fffff0) case _ => L(26, 0x3ffffee))
    case _ => L(30, 0x3fffffff)
  }

  /** The symbols in the order of their code words. */
  function Nth(k: nat): nat
    requires k < 257
  {
    match k / 16
    case 0 =>
      (match k % 16
       case 0 => 48 case 1 => 49 case 2 => 50 case 3 => 97 case 4 => 99 case 5 => 101 case 6 => 105 case 7 => 111
       case 8 => 115 case 9 => 116 case 10 => 32 case 11 => 37 case 12 => 45 case 13 => 46 case 14 => 47 case _ => 51)
    case 1 =>
      (match k % 16
       case 0 => 52 case 1 => 53 case 2 => 54 case 3 => 55 case 4 => 56 case 5 => 57 case 6 => 61 case 7 => 65
       case 8 => 95 case 9 => 98 case 10 => 100 case 11 => 102 case 12 => 103 case 13 => 104 case 14 => 108
           case _ => 109)
    case 2 =>
      (match k % 16
       case 0 => 110 case 1 => 112 case 2 => 114 case 3 => 117 case 4 => 58 case 5 => 66 case 6 => 67 case 7 => 68
       case 8 => 69 case 9 => 70 case 10 => 71 case 11 => 72 case 12 => 73 case 13 => 74 case 14 => 75 case _ => 76)
    case 3 =>
      (match k % 16
       case 0 => 77 case 1 => 78 case 2 => 79 case 3 => 80 case 4 => 81 case 5 => 82 case 6 => 83 case 7 => 84
       case 8 => 85 case 9 => 86 case 10 => 87 case 11 => 89 case 12 => 106 case 13 => 107 case 14 => 113 case _ => 118)
    case 4 =>
      (match k % 16
       case 0 => 119 case 1 => 120 case 2 => 121 case 3 => 122 case 4 => 38 case 5 => 42 case 6 => 44 case 7 => 59
       case 8 => 88 case 9 => 90 case 10 => 33 case 11 => 34 case 12 => 40 case 13 => 41 case 14 => 63 case _ => 39)
    case 5 =>
      (match k % 16
       case 0 => 43 case 1 => 124 case 2 => 35 case 3 => 62 case 4 => 0 case 5 => 36 case 6 => 64 case 7 => 91
       case 8 => 93 case 9 => 126 case 10 => 94 case 11 => 125 case 12 => 60 case 13 => 96 case 14 => 123 case _ => 92)
    case 6 =>
      (match k % 16
       case 0 => 195 case 1 => 208 case 2 => 128 case 3 => 130 case 4 => 131 case 5 => 162 case 6 => 184 case 7 => 194
       case 8 => 224 case 9 => 226 case 10 => 153 case 11 => 161 case 12 => 167 case 13 => 172 case 14 => 176
           case _ => 177)
    case 7 =>
      (match k % 16
       case 0 => 179 case 1 => 209 case 2 => 216 case 3 => 217 case 4 => 227 case 5 => 229 case 6 => 230 case 7 => 129
       case 8 => 132 case 9 => 133 case 10 => 134 case 11 => 136 case 12 => 146 case 13 => 154 case 14 => 156
           case _ => 160)
    case 8 =>
      (match k % 16
       case 0 => 163 case 1 => 164 case 2 => 169 case 3 => 170 case 4 => 173 case 5 => 178 case 6 => 181 case 7 => 185
       case 8 => 186 case 9 => 187 case 10 => 189 case 11 => 190 case 12 => 196 case 13 => 198 case 14 => 228
           case _ => 232)
    case 9 =>
      (match k % 16
       case 0 => 233 case 1 => 1 case 2 => 135 case 3 => 137 case 4 => 138 case 5 => 139 case 6 => 140 case 7 => 141
       case 8 => 143 case 9 => 147 case 10 => 149 case 11 => 150 case 12 => 151 case 13 => 152 case 14 => 155
           case _ => 157)
    case 10 =>
      (match k % 16
       case 0 => 158 case 1 => 165 case 2 => 166 case 3 => 168 case 4 => 174 case 5 => 175 case 6 => 180 case 7 => 182
       case 8 => 183 case 9 => 188 case 10 => 191 case 11 => 197 case 12 => 231 case 13 => 239 case 14 => 9
           case _ => 142)
    case 11 =>
      (match k % 16
       case 0 => 144 case 1 => 145 case 2 => 148 case 3 => 159 case 4 => 171 case 5 => 206 case 6 => 215 case 7 => 225
       case 8 => 236 case 9 => 237 case 10 => 199 case 11 => 207 case 12 => 234 case 13 => 235 case 14 => 192
           case _ => 193)
    case 12 =>
      (match k % 16
       case 0 => 200 case 1 => 201 case 2 => 202 case 3 => 205 case 4 => 210 case 5 => 213 case 6 => 218 case 7 => 219
       case 8 => 238 case 9 => 240 case 10 => 242 case 11 => 243 case 12 => 255 case 13 => 203 case 14 => 204
           case _ => 211)
    case 13 =>
      (match k % 16
       case 0 => 212 case 1 => 214 case 2 => 221 case 3 => 222 case 4 => 223 case 5 => 241 case 6 => 244 case 7 => 245
       case 8 => 246 case 9 => 247 case 10 => 248 case 11 => 250 case 12 => 251 case 13 => 252 case 14 => 253
           case _ => 254)
    case 14 =>
      (match k % 16
       case 0 => 2 case 1 => 3 case 2 => 4 case 3 => 5 case 4 => 6 case 5 => 7 case 6 => 8 case 7 => 11
       case 8 => 12 case 9 => 14 case 10 => 15 case 11 => 16 case 12 => 17 case 13 => 18 case 14 => 19 case _ => 20)
    case 15 =>
      (match k % 16
       case 0 => 21 case 1 => 23 case 2 => 24 case 3 => 25 case 4 => 26 case 5 => 27 case 6 => 28 case 7 => 29
       case 8 => 30 case 9 => 31 case 10 => 127 case 11 => 220 case 12 => 249 case 13 => 10 case 14 => 13 case _ => 22)
    case _ => 256
  }

  /** Where a symbol comes in this order. */
  function Rank(k: nat): nat
    requires k < 257
  {
    match k / 16
    case 0 =>
      (match k % 16
       case 0 => 84 case 1 => 145 case 2 => 224 case 3 => 225 case 4 => 226 case 5 => 227 case 6 => 228 case 7 => 229
       case 8 => 230 case 9 => 174 case 10 => 253 case 11 => 231 case 12 => 232 case 13 => 254 case 14 => 233
           case _ => 234)
    case 1 =>
      (match k % 16
       case 0 => 235 case 1 => 236 case 2 => 237 case 3 => 238 case 4 => 239 case 5 => 240 case 6 => 255 case 7 => 241
       case 8 => 242 case 9 => 243 case 10 => 244 case 11 => 245 case 12 => 246 case 13 => 247 case 14 => 248
           case _ => 249)
    case 2 =>
      (match k % 16
       case 0 => 10 case 1 => 74 case 2 => 75 case 3 => 82 case 4 => 85 case 5 => 11 case 6 => 68 case 7 => 79
       case 8 => 76 case 9 => 77 case 10 => 69 case 11 => 80 case 12 => 70 case 13 => 12 case 14 => 13 case _ => 14)
    case 3 =>
      (match k % 16
       case 0 => 0 case 1 => 1 case 2 => 2 case 3 => 15 case 4 => 16 case 5 => 17 case 6 => 18 case 7 => 19
       case 8 => 20 case 9 => 21 case 10 => 36 case 11 => 71 case 12 => 92 case 13 => 22 case 14 => 83 case _ => 78)
    case 4 =>
      (match k % 16
       case 0 => 86 case 1 => 23 case 2 => 37 case 3 => 38 case 4 => 39 case 5 => 40 case 6 => 41 case 7 => 42
       case 8 => 43 case 9 => 44 case 10 => 45 case 11 => 46 case 12 => 47 case 13 => 48 case 14 => 49 case _ => 50)
    case 5 =>
      (match k % 16
       case 0 => 51 case 1 => 52 case 2 => 53 case 3 => 54 case 4 => 55 case 5 => 56 case 6 => 57 case 7 => 58
       case 8 => 72 case 9 => 59 case 10 => 73 case 11 => 87 case 12 => 95 case 13 => 88 case 14 => 90 case _ => 24)
    case 6 =>
      (match k % 16
       case 0 => 93 case 1 => 3 case 2 => 25 case 3 => 4 case 4 => 26 case 5 => 5 case 6 => 27 case 7 => 28
       case 8 => 29 case 9 => 6 case 10 => 60 case 11 => 61 case 12 => 30 case 13 => 31 case 14 => 32 case _ => 7)
    case 7 =>
      (match k % 16
       case 0 => 33 case 1 => 62 case 2 => 34 case 3 => 8 case 4 => 9 case 5 => 35 case 6 => 63 case 7 => 64
       case 8 => 65 case 9 => 66 case 10 => 67 case 11 => 94 case 12 => 81 case 13 => 91 case 14 => 89 case _ => 250)
    case 8 =>
      (match k % 16
       case 0 => 98 case 1 => 119 case 2 => 99 case 3 => 100 case 4 => 120 case 5 => 121 case 6 => 122 case 7 => 146
       case 8 => 123 case 9 => 147 case 10 => 148 case 11 => 149 case 12 => 150 case 13 => 151 case 14 => 175
           case _ => 152)
    case 9 =>
      (match k % 16
       case 0 => 176 case 1 => 177 case 2 => 124 case 3 => 153 case 4 => 178 case 5 => 154 case 6 => 155 case 7 => 156
       case 8 => 157 case 9 => 106 case 10 => 125 case 11 => 158 case 12 => 126 case 13 => 159 case 14 => 160
           case _ => 179)
    case 10 =>
      (match k % 16
       case 0 => 127 case 1 => 107 case 2 => 101 case 3 => 128 case 4 => 129 case 5 => 161 case 6 => 162 case 7 => 108
       case 8 => 163 case 9 => 130 case 10 => 131 case 11 => 180 case 12 => 109 case 13 => 132 case 14 => 164
           case _ => 165)
    case 11 =>
      (match k % 16
       case 0 => 110 case 1 => 111 case 2 => 133 case 3 => 112 case 4 => 166 case 5 => 134 case 6 => 167 case 7 => 168
       case 8 => 102 case 9 => 135 case 10 => 136 case 11 => 137 case 12 => 169 case 13 => 138 case 14 => 139
           case _ => 170)
    case 12 =>
      (match k % 16
       case 0 => 190 case 1 => 191 case 2 => 103 case 3 => 96 case 4 => 140 case 5 => 171 case 6 => 141 case 7 => 186
       case 8 => 192 case 9 => 193 case 10 => 194 case 11 => 205 case 12 => 206 case 13 => 195 case 14 => 181
           case _ => 187)
    case 13 =>
      (match k % 16
       case 0 => 97 case 1 => 113 case 2 => 196 case 3 => 207 case 4 => 208 case 5 => 197 case 6 => 209 case 7 => 182
       case 8 => 114 case 9 => 115 case 10 => 198 case 11 => 199 case 12 => 251 case 13 => 210 case 14 => 211
           case _ => 212)
    case 14 =>
      (match k % 16
       case 0 => 104 case 1 => 183 case 2 => 105 case 3 => 116 case 4 => 142 case 5 => 117 case 6 => 118 case 7 => 172
       case 8 => 143 case 9 => 144 case 10 => 188 case 11 => 189 case 12 => 184 case 13 => 185 case 14 => 200
           case _ => 173)
    case 15 =>
      (match k % 16
       case 0 => 201 case 1 => 213 case 2 => 202 case 3 => 203 case 4 => 214 case 5 => 215 case 6 => 216 case 7 => 217
       case 8 => 218 case 9 => 252 case 10 => 219 case 11 => 220 case 12 => 221 case 13 => 222 case 14 => 223
           case _ => 204)
    case _ => 256
  }

  // ----- the code words cover all strings of thirty bits without overlap

  /** The length of the code word in place `p`. */
  function Length(p: nat): nat {
    if p < 10 then 5
    else if p < 36 then 6
    else if p < 68 then 7
    else if p < 74 then 8
    else if p < 79 then 10
    else if p < 82 then 11
    else if p < 84 then 12
    else if p < 90 then 13
    else if p < 92 then 14
    else if p < 95 then 15
    else if p < 98 then 19
    else if p < 106 then 20
    else if p < 119 then 21
    else if p < 145 then 22
    else if p < 174 then 23
    else if p < 186 then 24
    else if p < 190 then 25
    else if p < 205 then 26
    else if p < 224 then 27
    else if p < 253 then 28
    else 30
  }

  /** The first string of thirty bits that begins with it, as a number. */
  function Start(p: nat): nat {
    if p < 10 then 0x2000000 * p
    else if p < 36 then 0x14000000 + 0x1000000 * (p - 10)
    else if p < 68 then 0x2e000000 + 0x800000 * (p - 36)
    else if p < 74 then 0x3e000000 + 0x400000 * (p - 68)
    else if p < 79 then 0x3f800000 + 0x100000 * (p - 74)
    else if p < 82 then 0x3fd00000 + 0x80000 * (p - 79)
    else if p < 84 then 0x3fe80000 + 0x40000 * (p - 82)
    else if p < 90 then 0x3ff00000 + 0x20000 * (p - 84)
    else if p < 92 then 0x3ffc0000 + 0x10000 * (p - 90)
    else if p < 95 then 0x3ffe0000 + 0x8000 * (p - 92)
    else if p < 98 then 0x3fff8000 + 0x800 * (p - 95)
    else if p < 106 then 0x3fff9800 + 0x400 * (p - 98)
    else if p < 119 then 0x3fffb800 + 0x200 * (p - 106)
    else if p < 145 then 0x3fffd200 + 0x100 * (p - 119)
    else if p < 174 then 0x3fffec00 + 0x80 * (p - 145)
    else if p < 186 then 0x3ffffa80 + 0x40 * (p - 174)
    else if p < 190 then 0x3ffffd80 + 0x20 * (p - 186)
    else if p < 205 then 0x3ffffe00 + 0x10 * (p - 190)
    else if p < 224 then 0x3ffffef0 + 0x8 * (p - 205)
    else if p < 253 then 0x3fffff88 + 0x4 * (p - 224)
    else 0x3ffffffc + (p - 253)
  }

  /** How many strings of thirty bits begin with a code word of `n` bits. */
  function Share(n: nat): nat {
    match n
    case 5 => 0x2000000
    case 6 => 0x1000000
    case 7 => 0x800000
    case 8 => 0x400000
    case 10 => 0x100000
    case 11 => 0x80000
    case 12 => 0x40000
    case 13 => 0x20000
    case 14 => 0x10000
    case 15 => 0x8000
    case 19 => 0x800
    case 20 => 0x400
    case 21 => 0x200
    case 22 => 0x100
    case 23 => 0x80
    case 24 => 0x40
    case 25 => 0x20
    case 26 => 0x10
    case 27 => 0x8
    case 28 => 0x4
    case _ => 1
  }

  lemma Tiles(p: nat)
    requires p < 257
    ensures Start(0) == 0 && Start(257) == 0x4000_0000 && Start(p) + Share(Length(p)) == Start(p + 1)
    ensures 5 <= Length(p) <= 30
  {
  }

  lemma ShareIsPow2(p: nat)
    requires p < 257
    ensures Share(Length(p)) == Pow2(30 - Length(p))
  {
    SmallPowers();
    hide Pow2;
  }

  lemma SmallPowers()
    ensures Pow2(0) == 1 && Pow2(2) == 4 && Pow2(3) == 8 && Pow2(4) == 0x10 && Pow2(5) == 0x20 && Pow2(6) == 0x40
    ensures Pow2(7) == 0x80 && Pow2(8) == 0x100 && Pow2(9) == 0x200 && Pow2(10) == 0x400 && Pow2(11) == 0x800
    ensures Pow2(15) == 0x8000 && Pow2(16) == 0x1_0000 && Pow2(17) == 0x2_0000 && Pow2(18) == 0x4_0000
    ensures Pow2(19) == 0x8_0000 && Pow2(20) == 0x10_0000 && Pow2(22) == 0x40_0000 && Pow2(23) == 0x80_0000
    ensures Pow2(24) == 0x100_0000 && Pow2(25) == 0x200_0000 && Pow2(30) == 0x4000_0000
  {
    assert Pow2(10) == 0x400;
    assert Pow2(20) == 0x10_0000;
  }

  lemma FirstOrdered(k: nat)
    requires 0 <= k < 32
    ensures Nth(k) < 257 && Rank(Nth(k)) == k && Rank(k) < 257 && Nth(Rank(k)) == k
  {
  }

  lemma FirstListed(k: nat)
    requires 0 <= k < 32
    ensures Listed(k).nbits == Length(Rank(k)) && Listed(k).code * Share(Listed(k).nbits) == Start(Rank(k))
  {
  }

  lemma SecondOrdered(k: nat)
    requires 32 <= k < 64
    ensures Nth(k) < 257 && Rank(Nth(k)) == k && Rank(k) < 257 && Nth(Rank(k)) == k
  {
  }

  lemma SecondListed(k: nat)
    requires 32 <= k < 64
    ensures Listed(k).nbits == Length(Rank(k)) && Listed(k).code * Share(Listed(k).nbits) == Start(Rank(k))
  {
  }

  lemma ThirdOrdered(k: nat)
    requires 64 <= k < 96
    ensures Nth(k) < 257 && Rank(Nth(k)) == k && Rank(k) < 257 && Nth(Rank(k)) == k
  {
  }

  lemma ThirdListed(k: nat)
    requires 64 <= k < 96
    ensures Listed(k).nbits == Length(Rank(k)) && Listed(k).code * Share(Listed(k).nbits) == Start(Rank(k))
  {
  }

  lemma FourthOrdered(k: nat)
    requires 96 <= k < 128
    ensures Nth(k) < 257 && Rank(Nth(k)) == k && Rank(k) < 257 && Nth(Rank(k)) == k
  {
  }

  lemma FourthListed(k: nat)
    requires 96 <= k < 128
    ensures Listed(k).nbits == Length(Rank(k)) && Listed(k).code * Share(Listed(k).nbits) == Start(Rank(k))
  {
  }

  lemma FifthOrdered(k: nat)
    requires 128 <= k < 160
    ensures Nth(k) < 257 && Rank(Nth(k)) == k && Rank(k) < 257 && Nth(Rank(k)) == k
  {
  }

  lemma FifthListed(k: nat)
    requires 128 <= k < 160
    ensures Listed(k).nbits == Length(Rank(k)) && Listed(k).code * Share(Listed(k).nbits) == Start(Rank(k))
  {
  }

  lemma SixthOrdered(k: nat)
    requires 160 <= k < 192
    ensures Nth(k) < 257 && Rank(Nth(k)) == k && Rank(k) < 257 && Nth(Rank(k)) == k
  {
  }

  lemma SixthListed(k: nat)
    requires 160 <= k < 192
    ensures Listed(k).nbits == Length(Rank(k)) && Listed(k).code * Share(Listed(k).nbits) == Start(Rank(k))
  {
  }

  lemma SeventhOrdered(k: nat)
    requires 192 <= k < 224
    ensures Nth(k) < 257 && Rank(Nth(k)) == k && Rank(k) < 257 && Nth(Rank(k)) == k
  {
  }

  lemma SeventhListed(k: nat)
    requires 192 <= k < 224
    ensures Listed(k).nbits == Length(Rank(k)) && Listed(k).code * Share(Listed(k).nbits) == Start(Rank(k))
  {
  }

  lemma LastOrdered(k: nat)
    requires 224 <= k < 257
    ensures Nth(k) < 257 && Rank(Nth(k)) == k && Rank(k) < 257 && Nth(Rank(k)) == k
  {
  }

  lemma LastListed(k: nat)
    requires 224 <= k < 257
    ensures Listed(k).nbits == Length(Rank(k)) && Listed(k).code * Share(Listed(k).nbits) == Start(Rank(k))
  {
  }

  /** Every place has a symbol and every symbol a place. */
  lemma Ordered(k: nat)
    requires k < 257
    ensures Nth(k) < 257 && Rank(Nth(k)) == k && Rank(k) < 257 && Nth(Rank(k)) == k
  {
    hide *;
    if k < 32 {
      FirstOrdered(k);
    } else if k < 64 {
      SecondOrdered(k);
    } else if k < 96 {
      ThirdOrdered(k);
    } else if k < 128 {
      FourthOrdered(k);
    } else if k < 160 {
      FifthOrdered(k);
    } else if k < 192 {
      SixthOrdered(k);
    } else if k < 224 {
      SeventhOrdered(k);
    } else {
      LastOrdered(k);
    }
  }

  /** The list agrees with the order. */
  lemma ListedAt(k: nat)
    requires k < 257
    ensures Listed(k).nbits == Length(Rank(k)) && Listed(k).code * Share(Listed(k).nbits) == Start(Rank(k))
  {
    hide *;
    if k < 32 {
      FirstListed(k);
    } else if k < 64 {
      SecondListed(k);
    } else if k < 96 {
      ThirdListed(k);
    } else if k < 128 {
      FourthListed(k);
    } else if k < 160 {
      FifthListed(k);
    } else if k < 192 {
      SixthListed(k);
    } else if k < 224 {
      SeventhListed(k);
    } else {
      LastListed(k);
    }
  }

  // ----- the list of the script

  function Codes(): (c: seq<Code>)
    ensures |c| == 257 && forall k :: 0 <= k < 257 ==> c[k] == Code(k, BitsOf(Listed(k).code, Listed(k).nbits))
  {
    hide Listed;
    seq(257, k requires 0 <= k < 257 => Code(k, BitsOf(Listed(k).code, Listed(k).nbits)))
  }

  /** The code word in place `p`: its first strings are those from Start(p) on. */
  lemma WordAt(k: nat)
    requires k < 257
    ensures var w, p := Codes()[k].word, Rank(k);
      && p < 257 && 5 <= |w| == Length(p) <= 30 && Value(w) * Pow2(30 - |w|) == Start(p)
      && Start(p) + Pow2(30 - |w|) == Start(p + 1) <= 0x4000_0000
  {
    hide *;
    Ordered(k);
    ListedAt(k);
    Tiles(Rank(k));
    ShareIsPow2(Rank(k));
    StartsBelow(Rank(k) + 1, 257);
    SmallPowers();
    var n, m := Listed(k).nbits, Listed(k).code;
    Pow2Add(n, 30 - n);
    FitsIn(m, Pow2(n), Pow2(30 - n));
    ValueOfBits(m, n);
  }

  lemma FitsIn(m: nat, a: nat, b: nat)
    requires m * b + b <= a * b && b > 0
    ensures m < a
  {
    if m >= a {
      Times(a, m, b);
    }
  }

  lemma {:induction false} StartsBelow(p: nat, q: nat)
    requires p <= q <= 257
    ensures Start(p) <= Start(q)
  {
    hide Start, Length, Share;
    if p < q {
      Tiles(q - 1);
      StartsBelow(p, q - 1);
    }
  }

  /** A place is known by a string of thirty bits in its share. */
  lemma SamePlace(p: nat, q: nat, v: nat)
    requires p < 257 && q < 257 && Start(p) <= v < Start(p + 1) && Start(q) <= v < Start(q + 1)
    ensures p == q
  {
    hide *;
    if p < q {
      StartsBelow(p + 1, q);
    } else if q < p {
      StartsBelow(q + 1, p);
    }
  }

  /** The strings that begin with `v` begin with a prefix of it, too. */
  lemma PrefixStarts(u: seq<bool>, v: seq<bool>)
    requires u <= v && |v| <= 30
    ensures var a, b := Pow2(30 - |u|), Pow2(30 - |v|);
      Value(u) * a <= Value(v) * b < Value(u) * a + a
  {
    hide *;
    PrefixShare(u, v);
    Pow2Add(|v| - |u|, 30 - |v|);
    Nested(Value(u), Value(v), Pow2(|v| - |u|), Pow2(30 - |v|));
  }

  lemma NoPrefix(i: nat, j: nat)
    requires i < 257 && j < 257 && Codes()[i].word <= Codes()[j].word
    ensures i == j
  {
    hide *;
    WordAt(i);
    WordAt(j);
    PrefixStarts(Codes()[i].word, Codes()[j].word);
    Ordered(i);
    Ordered(j);
    StartsRise(Rank(j));
    SamePlace(Rank(i), Rank(j), Start(Rank(j)));
  }

  lemma StartsRise(p: nat)
    requires p < 257
    ensures Start(p) < Start(p + 1)
  {
    hide *;
    Tiles(p);
    ShareIsPow2(p);
  }

  lemma ListIsPrefixFree()
    ensures PrefixFree(Codes())
  {
    var c := Codes();
    hide Codes;
    forall i, j | 0 <= i < |c| && 0 <= j < |c| && i != j
      ensures !(c[i].word <= c[j].word)
    {
      if c[i].word <= c[j].word {
        NoPrefix(i, j);
      }
    }
  }

  /** The place whose share a string of thirty bits is in. */
  lemma {:induction false} PlaceOf(v: nat, n: nat) returns (p: nat)
    requires v < Start(n) && n <= 257
    ensures p < n && Start(p) <= v < Start(p + 1)
  {
    hide Start, Length, Share;
    Tiles(0);
    if n == 0 || Start(n - 1) <= v {
      p := n - 1;
    } else {
      p := PlaceOf(v, n - 1);
    }
  }

  /** A string of at least thirty bits begins with a code word. */
  lemma CodeOf(s: seq<bool>) returns (k: nat)
    requires |s| >= 30
    ensures k < 257 && Codes()[k].word <= s
  {
    hide *;
    var v := s[..30];
    BitsOfValue(v);
    SmallPowers();
    Tiles(0);
    var p := PlaceOf(Value(v), 257);
    Ordered(p);
    k := Nth(p);
    WordAt(k);
    var w := Codes()[k].word;
    PrefixShare(w, v);
    assert v <= s;
  }

  lemma ListIsComplete()
    ensures Complete(Codes())
  {
    var c := Codes();
    hide Codes, Longest;
    forall s: seq<bool> | Longest(c) <= |s|
      ensures Begins(c, s)
    {
      LongestIsThirty();
      var k := CodeOf(s);
      assert c[k].word <= s;
    }
  }

  lemma LongestIsThirty()
    ensures Longest(Codes()) >= 30
  {
    hide Codes, Longest;
    assert Rank(256) == 256 && Length(256) == 30;
    WordAt(256);
    assert |Codes()[256].word| <= Longest(Codes());
  }

  /** The end-of-string symbol is thirty ones. */
  lemma EosIsOnes()
    ensures Codes()[256].symbol == EOS && AllOnes(Codes()[256].word) && |Codes()[256].word| == 30
  {
    SmallPowers();
    assert Listed(256) == L(30, 0x3fffffff);
    hide Codes, Pow2, Listed, BitsOf;
    Ones(30);
  }

  /** The script's list is one that the table is right for. */
  lemma ScriptListIsUsable()
    ensures PrefixFree(Codes()) && Complete(Codes()) && Usable(Build(Codes()))
    ensures forall k :: 0 <= k < 257 ==> |Codes()[k].word| >= 4
  {
    hide *;
    ListIsPrefixFree();
    ListIsComplete();
    forall k | 0 <= k < 257
      ensures |Codes()[k].word| >= 4
    {
      WordAt(k);
    }
    ListIsUsable(Codes());
  }

  /** The code words of octets, one after the other. */
  function Encode(octets: seq<nat>): seq<bool>
    requires forall i :: 0 <= i < |octets| ==> octets[i] < 256
  {
    if octets == [] then [] else Codes()[octets[0]].word + Encode(octets[1..])
  }

  lemma {:induction false} EncodeEncodes(octets: seq<nat>)
    requires forall i :: 0 <= i < |octets| ==> octets[i] < 256
    ensures Encodes(Codes(), octets, Encode(octets))
  {
    hide Codes;
    if octets != [] {
      EncodeEncodes(octets[1..]);
      var c, w, rest := Codes(), Codes()[octets[0]].word, Encode(octets[1..]);
      assert (w + rest)[..|w|] == w && (w + rest)[|w|..] == rest;
      assert c[octets[0]] == Code(octets[0], w);
      assert Stands(c, octets[0], (w + rest)[..|w|]);
    }
  }

  /** Any octets that are encoded with the list, and padded, come back from a run of the table. */
  lemma OctetsComeBack(octets: seq<nat>, pad: seq<bool>, nibbles: seq<nat>)
    requires forall i :: 0 <= i < |octets| ==> octets[i] < 256
    requires AllOnes(pad) && |pad| <= 7
    requires Bits(nibbles) == Encode(octets) + pad && forall i :: 0 <= i < |nibbles| ==> nibbles[i] < 16
    ensures var run := RunTable(Table(Build(Codes())), Run(0, true, []), nibbles);
      run.out == octets && run.accepted && run.id != FAIL
  {
    hide *;
    ScriptListIsUsable();
    EosIsOnes();
    EncodeEncodes(octets);
    EosIsNoOctet(octets);
    EncodedComesBack(Codes(), 256, octets, Encode(octets), pad, nibbles);
  }

  lemma EosIsNoOctet(octets: seq<nat>)
    requires forall i :: 0 <= i < |octets| ==> octets[i] < 256
    ensures EOS !in octets
  {
  }

  /** mkhufftbl.py as it is called: the table it prints is that of its own list. */
  method GenerateTable() returns (table: seq<seq<Cell>>)
    ensures table == Table(Build(Codes()))
  {
    hide *;
    ScriptListIsUsable();
    table := GenerateFromCodes(Codes());
  }
}
