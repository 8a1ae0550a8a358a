/** The substitution table of AES, entry by entry: with every byte its inverse, found outside and checked here. */
module AesEntries {
  import opened ModArith
  import opened AesTables
  import opened AesField

  /** x has the inverse y, or both are 0, and the table takes x to the affine image of y. */
  ghost predicate EntryRight(i: int) {
    i >= 0 && exists y: nat :: y < 256 && (if i == 0 then y == 0 else FieldTimes(i, y) == 1) && SBox(i) == Affine(y)
  }

  lemma {:induction false} Entry(i: nat, x: bv8, s: bv8, y: bv8)
    requires i == x as int && i != 0 && SBox(i) == s as int && WordTimes(x, y, 8) == 1 && WordAffine(y) == s
    ensures EntryRight(i)
  {
    assert Pow2(8) == 256;
    WordTimesIs(x, y, 8, i, y as int);
    WordAffineIs(y, y as int);
  }

  lemma {:induction false} Zero()
    ensures EntryRight(0)
  {
    WordAffineIs(0, 0);
    assert WordAffine(0) == 0x63 && SBox(0) == 0x63;
  }

  lemma {:induction false} Row0(i: int)
    requires 0 <= i < 16
    ensures EntryRight(i)
  {
    match i
    case 0 => Zero();
    case 1 => Entry(i, 0x01, 0x7C, 0x01);
    case 2 => Entry(i, 0x02, 0x77, 0x8D);
    case 3 => Entry(i, 0x03, 0x7B, 0xF6);
    case 4 => Entry(i, 0x04, 0xF2, 0xCB);
    case 5 => Entry(i, 0x05, 0x6B, 0x52);
    case 6 => Entry(i, 0x06, 0x6F, 0x7B);
    case 7 => Entry(i, 0x07, 0xC5, 0xD1);
    case 8 => Entry(i, 0x08, 0x30, 0xE8);
    case 9 => Entry(i, 0x09, 0x01, 0x4F);
    case 10 => Entry(i, 0x0A, 0x67, 0x29);
    case 11 => Entry(i, 0x0B, 0x2B, 0xC0);
    case 12 => Entry(i, 0x0C, 0xFE, 0xB0);
    case 13 => Entry(i, 0x0D, 0xD7, 0xE1);
    case 14 => Entry(i, 0x0E, 0xAB, 0xE5);
    case _ => Entry(i, 0x0F, 0x76, 0xC7);
  }

  lemma {:induction false} Row1(i: int)
    requires 16 <= i < 32
    ensures EntryRight(i)
  {
    match i
    case 16 => Entry(i, 0x10, 0xCA, 0x74);
    case 17 => Entry(i, 0x11, 0x82, 0xB4);
    case 18 => Entry(i, 0x12, 0xC9, 0xAA);
    case 19 => Entry(i, 0x13, 0x7D, 0x4B);
    case 20 => Entry(i, 0x14, 0xFA, 0x99);
    case 21 => Entry(i, 0x15, 0x59, 0x2B);
    case 22 => Entry(i, 0x16, 0x47, 0x60);
    case 23 => Entry(i, 0x17, 0xF0, 0x5F);
    case 24 => Entry(i, 0x18, 0xAD, 0x58);
    case 25 => Entry(i, 0x19, 0xD4, 0x3F);
    case 26 => Entry(i, 0x1A, 0xA2, 0xFD);
    case 27 => Entry(i, 0x1B, 0xAF, 0xCC);
    case 28 => Entry(i, 0x1C, 0x9C, 0xFF);
    case 29 => Entry(i, 0x1D, 0xA4, 0x40);
    case 30 => Entry(i, 0x1E, 0x72, 0xEE);
    case _ => Entry(i, 0x1F, 0xC0, 0xB2);
  }

  lemma {:induction false} Row2(i: int)
    requires 32 <= i < 48
    ensures EntryRight(i)
  {
    match i
    case 32 => Entry(i, 0x20, 0xB7, 0x3A);
    case 33 => Entry(i, 0x21, 0xFD, 0x6E);
    case 34 => Entry(i, 0x22, 0x93, 0x5A);
    case 35 => Entry(i, 0x23, 0x26, 0xF1);
    case 36 => Entry(i, 0x24, 0x36, 0x55);
    case 37 => Entry(i, 0x25, 0x3F, 0x4D);
    case 38 => Entry(i, 0x26, 0xF7, 0xA8);
    case 39 => Entry(i, 0x27, 0xCC, 0xC9);
    case 40 => Entry(i, 0x28, 0x34, 0xC1);
    case 41 => Entry(i, 0x29, 0xA5, 0x0A);
    case 42 => Entry(i, 0x2A, 0xE5, 0x98);
    case 43 => Entry(i, 0x2B, 0xF1, 0x15);
    case 44 => Entry(i, 0x2C, 0x71, 0x30);
    case 45 => Entry(i, 0x2D, 0xD8, 0x44);
    case 46 => Entry(i, 0x2E, 0x31, 0xA2);
    case _ => Entry(i, 0x2F, 0x15, 0xC2);
  }

  lemma {:induction false} Row3(i: int)
    requires 48 <= i < 64
    ensures EntryRight(i)
  {
    match i
    case 48 => Entry(i, 0x30, 0x04, 0x2C);
    case 49 => Entry(i, 0x31, 0xC7, 0x45);
    case 50 => Entry(i, 0x32, 0x23, 0x92);
    case 51 => Entry(i, 0x33, 0xC3, 0x6C);
    case 52 => Entry(i, 0x34, 0x18, 0xF3);
    case 53 => Entry(i, 0x35, 0x96, 0x39);
    case 54 => Entry(i, 0x36, 0x05, 0x66);
    case 55 => Entry(i, 0x37, 0x9A, 0x42);
    case 56 => Entry(i, 0x38, 0x07, 0xF2);
    case 57 => Entry(i, 0x39, 0x12, 0x35);
    case 58 => Entry(i, 0x3A, 0x80, 0x20);
    case 59 => Entry(i, 0x3B, 0xE2, 0x6F);
    case 60 => Entry(i, 0x3C, 0xEB, 0x77);
    case 61 => Entry(i, 0x3D, 0x27, 0xBB);
    case 62 => Entry(i, 0x3E, 0xB2, 0x59);
    case _ => Entry(i, 0x3F, 0x75, 0x19);
  }

  lemma {:induction false} Row4(i: int)
    requires 64 <= i < 80
    ensures EntryRight(i)
  {
    match i
    case 64 => Entry(i, 0x40, 0x09, 0x1D);
    case 65 => Entry(i, 0x41, 0x83, 0xFE);
    case 66 => Entry(i, 0x42, 0x2C, 0x37);
    case 67 => Entry(i, 0x43, 0x1A, 0x67);
    case 68 => Entry(i, 0x44, 0x1B, 0x2D);
    case 69 => Entry(i, 0x45, 0x6E, 0x31);
    case 70 => Entry(i, 0x46, 0x5A, 0xF5);
    case 71 => Entry(i, 0x47, 0xA0, 0x69);
    case 72 => Entry(i, 0x48, 0x52, 0xA7);
    case 73 => Entry(i, 0x49, 0x3B, 0x64);
    case 74 => Entry(i, 0x4A, 0xD6, 0xAB);
    case 75 => Entry(i, 0x4B, 0xB3, 0x13);
    case 76 => Entry(i, 0x4C, 0x29, 0x54);
    case 77 => Entry(i, 0x4D, 0xE3, 0x25);
    case 78 => Entry(i, 0x4E, 0x2F, 0xE9);
    case _ => Entry(i, 0x4F, 0x84, 0x09);
  }

  lemma {:induction false} Row5(i: int)
    requires 80 <= i < 96
    ensures EntryRight(i)
  {
    match i
    case 80 => Entry(i, 0x50, 0x53, 0xED);
    case 81 => Entry(i, 0x51, 0xD1, 0x5C);
    case 82 => Entry(i, 0x52, 0x00, 0x05);
    case 83 => Entry(i, 0x53, 0xED, 0xCA);
    case 84 => Entry(i, 0x54, 0x20, 0x4C);
    case 85 => Entry(i, 0x55, 0xFC, 0x24);
    case 86 => Entry(i, 0x56, 0xB1, 0x87);
    case 87 => Entry(i, 0x57, 0x5B, 0xBF);
    case 88 => Entry(i, 0x58, 0x6A, 0x18);
    case 89 => Entry(i, 0x59, 0xCB, 0x3E);
    case 90 => Entry(i, 0x5A, 0xBE, 0x22);
    case 91 => Entry(i, 0x5B, 0x39, 0xF0);
    case 92 => Entry(i, 0x5C, 0x4A, 0x51);
    case 93 => Entry(i, 0x5D, 0x4C, 0xEC);
    case 94 => Entry(i, 0x5E, 0x58, 0x61);
    case _ => Entry(i, 0x5F, 0xCF, 0x17);
  }

  lemma {:induction false} Row6(i: int)
    requires 96 <= i < 112
    ensures EntryRight(i)
  {
    match i
    case 96 => Entry(i, 0x60, 0xD0, 0x16);
    case 97 => Entry(i, 0x61, 0xEF, 0x5E);
    case 98 => Entry(i, 0x62, 0xAA, 0xAF);
    case 99 => Entry(i, 0x63, 0xFB, 0xD3);
    case 100 => Entry(i, 0x64, 0x43, 0x49);
    case 101 => Entry(i, 0x65, 0x4D, 0xA6);
    case 102 => Entry(i, 0x66, 0x33, 0x36);
    case 103 => Entry(i, 0x67, 0x85, 0x43);
    case 104 => Entry(i, 0x68, 0x45, 0xF4);
    case 105 => Entry(i, 0x69, 0xF9, 0x47);
    case 106 => Entry(i, 0x6A, 0x02, 0x91);
    case 107 => Entry(i, 0x6B, 0x7F, 0xDF);
    case 108 => Entry(i, 0x6C, 0x50, 0x33);
    case 109 => Entry(i, 0x6D, 0x3C, 0x93);
    case 110 => Entry(i, 0x6E, 0x9F, 0x21);
    case _ => Entry(i, 0x6F, 0xA8, 0x3B);
  }

  lemma {:induction false} Row7(i: int)
    requires 112 <= i < 128
    ensures EntryRight(i)
  {
    match i
    case 112 => Entry(i, 0x70, 0x51, 0x79);
    case 113 => Entry(i, 0x71, 0xA3, 0xB7);
    case 114 => Entry(i, 0x72, 0x40, 0x97);
    case 115 => Entry(i, 0x73, 0x8F, 0x85);
    case 116 => Entry(i, 0x74, 0x92, 0x10);
    case 117 => Entry(i, 0x75, 0x9D, 0xB5);
    case 118 => Entry(i, 0x76, 0x38, 0xBA);
    case 119 => Entry(i, 0x77, 0xF5, 0x3C);
    case 120 => Entry(i, 0x78, 0xBC, 0xB6);
    case 121 => Entry(i, 0x79, 0xB6, 0x70);
    case 122 => Entry(i, 0x7A, 0xDA, 0xD0);
    case 123 => Entry(i, 0x7B, 0x21, 0x06);
    case 124 => Entry(i, 0x7C, 0x10, 0xA1);
    case 125 => Entry(i, 0x7D, 0xFF, 0xFA);
    case 126 => Entry(i, 0x7E, 0xF3, 0x81);
    case _ => Entry(i, 0x7F, 0xD2, 0x82);
  }

  lemma {:induction false} Row8(i: int)
    requires 128 <= i < 144
    ensures EntryRight(i)
  {
    match i
    case 128 => Entry(i, 0x80, 0xCD, 0x83);
    case 129 => Entry(i, 0x81, 0x0C, 0x7E);
    case 130 => Entry(i, 0x82, 0x13, 0x7F);
    case 131 => Entry(i, 0x83, 0xEC, 0x80);
    case 132 => Entry(i, 0x84, 0x5F, 0x96);
    case 133 => Entry(i, 0x85, 0x97, 0x73);
    case 134 => Entry(i, 0x86, 0x44, 0xBE);
    case 135 => Entry(i, 0x87, 0x17, 0x56);
    case 136 => Entry(i, 0x88, 0xC4, 0x9B);
    case 137 => Entry(i, 0x89, 0xA7, 0x9E);
    case 138 => Entry(i, 0x8A, 0x7E, 0x95);
    case 139 => Entry(i, 0x8B, 0x3D, 0xD9);
    case 140 => Entry(i, 0x8C, 0x64, 0xF7);
    case 141 => Entry(i, 0x8D, 0x5D, 0x02);
    case 142 => Entry(i, 0x8E, 0x19, 0xB9);
    case _ => Entry(i, 0x8F, 0x73, 0xA4);
  }

  lemma {:induction false} Row9(i: int)
    requires 144 <= i < 160
    ensures EntryRight(i)
  {
    match i
    case 144 => Entry(i, 0x90, 0x60, 0xDE);
    case 145 => Entry(i, 0x91, 0x81, 0x6A);
    case 146 => Entry(i, 0x92, 0x4F, 0x32);
    case 147 => Entry(i, 0x93, 0xDC, 0x6D);
    case 148 => Entry(i, 0x94, 0x22, 0xD8);
    case 149 => Entry(i, 0x95, 0x2A, 0x8A);
    case 150 => Entry(i, 0x96, 0x90, 0x84);
    case 151 => Entry(i, 0x97, 0x88, 0x72);
    case 152 => Entry(i, 0x98, 0x46, 0x2A);
    case 153 => Entry(i, 0x99, 0xEE, 0x14);
    case 154 => Entry(i, 0x9A, 0xB8, 0x9F);
    case 155 => Entry(i, 0x9B, 0x14, 0x88);
    case 156 => Entry(i, 0x9C, 0xDE, 0xF9);
    case 157 => Entry(i, 0x9D, 0x5E, 0xDC);
    case 158 => Entry(i, 0x9E, 0x0B, 0x89);
    case _ => Entry(i, 0x9F, 0xDB, 0x9A);
  }

  lemma {:induction false} RowA(i: int)
    requires 160 <= i < 176
    ensures EntryRight(i)
  {
    match i
    case 160 => Entry(i, 0xA0, 0xE0, 0xFB);
    case 161 => Entry(i, 0xA1, 0x32, 0x7C);
    case 162 => Entry(i, 0xA2, 0x3A, 0x2E);
    case 163 => Entry(i, 0xA3, 0x0A, 0xC3);
    case 164 => Entry(i, 0xA4, 0x49, 0x8F);
    case 165 => Entry(i, 0xA5, 0x06, 0xB8);
    case 166 => Entry(i, 0xA6, 0x24, 0x65);
    case 167 => Entry(i, 0xA7, 0x5C, 0x48);
    case 168 => Entry(i, 0xA8, 0xC2, 0x26);
    case 169 => Entry(i, 0xA9, 0xD3, 0xC8);
    case 170 => Entry(i, 0xAA, 0xAC, 0x12);
    case 171 => Entry(i, 0xAB, 0x62, 0x4A);
    case 172 => Entry(i, 0xAC, 0x91, 0xCE);
    case 173 => Entry(i, 0xAD, 0x95, 0xE7);
    case 174 => Entry(i, 0xAE, 0xE4, 0xD2);
    case _ => Entry(i, 0xAF, 0x79, 0x62);
  }

  lemma {:induction false} RowB(i: int)
    requires 176 <= i < 192
    ensures EntryRight(i)
  {
    match i
    case 176 => Entry(i, 0xB0, 0xE7, 0x0C);
    case 177 => Entry(i, 0xB1, 0xC8, 0xE0);
    case 178 => Entry(i, 0xB2, 0x37, 0x1F);
    case 179 => Entry(i, 0xB3, 0x6D, 0xEF);
    case 180 => Entry(i, 0xB4, 0x8D, 0x11);
    case 181 => Entry(i, 0xB5, 0xD5, 0x75);
    case 182 => Entry(i, 0xB6, 0x4E, 0x78);
    case 183 => Entry(i, 0xB7, 0xA9, 0x71);
    case 184 => Entry(i, 0xB8, 0x6C, 0xA5);
    case 185 => Entry(i, 0xB9, 0x56, 0x8E);
    case 186 => Entry(i, 0xBA, 0xF4, 0x76);
    case 187 => Entry(i, 0xBB, 0xEA, 0x3D);
    case 188 => Entry(i, 0xBC, 0x65, 0xBD);
    case 189 => Entry(i, 0xBD, 0x7A, 0xBC);
    case 190 => Entry(i, 0xBE, 0xAE, 0x86);
    case _ => Entry(i, 0xBF, 0x08, 0x57);
  }

  lemma {:induction false} RowC(i: int)
    requires 192 <= i < 208
    ensures EntryRight(i)
  {
    match i
    case 192 => Entry(i, 0xC0, 0xBA, 0x0B);
    case 193 => Entry(i, 0xC1, 0x78, 0x28);
    case 194 => Entry(i, 0xC2, 0x25, 0x2F);
    case 195 => Entry(i, 0xC3, 0x2E, 0xA3);
    case 196 => Entry(i, 0xC4, 0x1C, 0xDA);
    case 197 => Entry(i, 0xC5, 0xA6, 0xD4);
    case 198 => Entry(i, 0xC6, 0xB4, 0xE4);
    case 199 => Entry(i, 0xC7, 0xC6, 0x0F);
    case 200 => Entry(i, 0xC8, 0xE8, 0xA9);
    case 201 => Entry(i, 0xC9, 0xDD, 0x27);
    case 202 => Entry(i, 0xCA, 0x74, 0x53);
    case 203 => Entry(i, 0xCB, 0x1F, 0x04);
    case 204 => Entry(i, 0xCC, 0x4B, 0x1B);
    case 205 => Entry(i, 0xCD, 0xBD, 0xFC);
    case 206 => Entry(i, 0xCE, 0x8B, 0xAC);
    case _ => Entry(i, 0xCF, 0x8A, 0xE6);
  }

  lemma {:induction false} RowD(i: int)
    requires 208 <= i < 224
    ensures EntryRight(i)
  {
    match i
    case 208 => Entry(i, 0xD0, 0x70, 0x7A);
    case 209 => Entry(i, 0xD1, 0x3E, 0x07);
    case 210 => Entry(i, 0xD2, 0xB5, 0xAE);
    case 211 => Entry(i, 0xD3, 0x66, 0x63);
    case 212 => Entry(i, 0xD4, 0x48, 0xC5);
    case 213 => Entry(i, 0xD5, 0x03, 0xDB);
    case 214 => Entry(i, 0xD6, 0xF6, 0xE2);
    case 215 => Entry(i, 0xD7, 0x0E, 0xEA);
    case 216 => Entry(i, 0xD8, 0x61, 0x94);
    case 217 => Entry(i, 0xD9, 0x35, 0x8B);
    case 218 => Entry(i, 0xDA, 0x57, 0xC4);
    case 219 => Entry(i, 0xDB, 0xB9, 0xD5);
    case 220 => Entry(i, 0xDC, 0x86, 0x9D);
    case 221 => Entry(i, 0xDD, 0xC1, 0xF8);
    case 222 => Entry(i, 0xDE, 0x1D, 0x90);
    case _ => Entry(i, 0xDF, 0x9E, 0x6B);
  }

  lemma {:induction false} RowE(i: int)
    requires 224 <= i < 240
    ensures EntryRight(i)
  {
    match i
    case 224 => Entry(i, 0xE0, 0xE1, 0xB1);
    case 225 => Entry(i, 0xE1, 0xF8, 0x0D);
    case 226 => Entry(i, 0xE2, 0x98, 0xD6);
    case 227 => Entry(i, 0xE3, 0x11, 0xEB);
    case 228 => Entry(i, 0xE4, 0x69, 0xC6);
    case 229 => Entry(i, 0xE5, 0xD9, 0x0E);
    case 230 => Entry(i, 0xE6, 0x8E, 0xCF);
    case 231 => Entry(i, 0xE7, 0x94, 0xAD);
    case 232 => Entry(i, 0xE8, 0x9B, 0x08);
    case 233 => Entry(i, 0xE9, 0x1E, 0x4E);
    case 234 => Entry(i, 0xEA, 0x87, 0xD7);
    case 235 => Entry(i, 0xEB, 0xE9, 0xE3);
    case 236 => Entry(i, 0xEC, 0xCE, 0x5D);
    case 237 => Entry(i, 0xED, 0x55, 0x50);
    case 238 => Entry(i, 0xEE, 0x28, 0x1E);
    case _ => Entry(i, 0xEF, 0xDF, 0xB3);
  }

  lemma {:induction false} RowF(i: int)
    requires 240 <= i < 256
    ensures EntryRight(i)
  {
    match i
    case 240 => Entry(i, 0xF0, 0x8C, 0x5B);
    case 241 => Entry(i, 0xF1, 0xA1, 0x23);
    case 242 => Entry(i, 0xF2, 0x89, 0x38);
    case 243 => Entry(i, 0xF3, 0x0D, 0x34);
    case 244 => Entry(i, 0xF4, 0xBF, 0x68);
    case 245 => Entry(i, 0xF5, 0xE6, 0x46);
    case 246 => Entry(i, 0xF6, 0x42, 0x03);
    case 247 => Entry(i, 0xF7, 0x68, 0x8C);
    case 248 => Entry(i, 0xF8, 0x41, 0xDD);
    case 249 => Entry(i, 0xF9, 0x99, 0x9C);
    case 250 => Entry(i, 0xFA, 0x2D, 0x7D);
    case 251 => Entry(i, 0xFB, 0x0F, 0xA0);
    case 252 => Entry(i, 0xFC, 0xB0, 0xCD);
    case 253 => Entry(i, 0xFD, 0x54, 0x1A);
    case 254 => Entry(i, 0xFE, 0xBB, 0x41);
    case _ => Entry(i, 0xFF, 0x16, 0x1C);
  }

  lemma {:induction false} AllEntries(i: int)
    requires 0 <= i < 256
    ensures EntryRight(i)
  {
    match i / 16
    case 0 => Row0(i);
    case 1 => Row1(i);
    case 2 => Row2(i);
    case 3 => Row3(i);
    case 4 => Row4(i);
    case 5 => Row5(i);
    case 6 => Row6(i);
    case 7 => Row7(i);
    case 8 => Row8(i);
    case 9 => Row9(i);
    case 10 => RowA(i);
    case 11 => RowB(i);
    case 12 => RowC(i);
    case 13 => RowD(i);
    case 14 => RowE(i);
    case _ => RowF(i);
  }

  /** The table is the affine image of the inverse, for all 256 bytes. */
  lemma {:induction false} SBoxIsAffine(i: nat) returns (y: nat)
    requires i < 256
    ensures y < 256 && (if i == 0 then y == 0 else FieldTimes(i, y) == 1) && SBox(i) == Affine(y)
  {
    AllEntries(i);
    y :| y < 256 && (if i == 0 then y == 0 else FieldTimes(i, y) == 1) && SBox(i) == Affine(y);
  }
}
