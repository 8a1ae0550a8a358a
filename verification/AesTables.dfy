/** The substitution tables of AES; the second undoes the first. */
module AesTables {
  import opened Tables

  /** The table of the encryption, in rows of eight. */
  function SBox(i: int): int {
    match i / 8
    case 0 => Pick(i % 8, 0x63, 0x7C, 0x77, 0x7B, 0xF2, 0x6B, 0x6F, 0xC5)
    case 1 => Pick(i % 8, 0x30, 0x01, 0x67, 0x2B, 0xFE, 0xD7, 0xAB, 0x76)
    case 2 => Pick(i % 8, 0xCA, 0x82, 0xC9, 0x7D, 0xFA, 0x59, 0x47, 0xF0)
    case 3 => Pick(i % 8, 0xAD, 0xD4, 0xA2, 0xAF, 0x9C, 0xA4, 0x72, 0xC0)
    case 4 => Pick(i % 8, 0xB7, 0xFD, 0x93, 0x26, 0x36, 0x3F, 0xF7, 0xCC)
    case 5 => Pick(i % 8, 0x34, 0xA5, 0xE5, 0xF1, 0x71, 0xD8, 0x31, 0x15)
    case 6 => Pick(i % 8, 0x04, 0xC7, 0x23, 0xC3, 0x18, 0x96, 0x05, 0x9A)
    case 7 => Pick(i % 8, 0x07, 0x12, 0x80, 0xE2, 0xEB, 0x27, 0xB2, 0x75)
    case 8 => Pick(i % 8, 0x09, 0x83, 0x2C, 0x1A, 0x1B, 0x6E, 0x5A, 0xA0)
    case 9 => Pick(i % 8, 0x52, 0x3B, 0xD6, 0xB3, 0x29, 0xE3, 0x2F, 0x84)
    case 10 => Pick(i % 8, 0x53, 0xD1, 0x00, 0xED, 0x20, 0xFC, 0xB1, 0x5B)
    case 11 => Pick(i % 8, 0x6A, 0xCB, 0xBE, 0x39, 0x4A, 0x4C, 0x58, 0xCF)
    case 12 => Pick(i % 8, 0xD0, 0xEF, 0xAA, 0xFB, 0x43, 0x4D, 0x33, 0x85)
    case 13 => Pick(i % 8, 0x45, 0xF9, 0x02, 0x7F, 0x50, 0x3C, 0x9F, 0xA8)
    case 14 => Pick(i % 8, 0x51, 0xA3, 0x40, 0x8F, 0x92, 0x9D, 0x38, 0xF5)
    case 15 => Pick(i % 8, 0xBC, 0xB6, 0xDA, 0x21, 0x10, 0xFF, 0xF3, 0xD2)
    case 16 => Pick(i % 8, 0xCD, 0x0C, 0x13, 0xEC, 0x5F, 0x97, 0x44, 0x17)
    case 17 => Pick(i % 8, 0xC4, 0xA7, 0x7E, 0x3D, 0x64, 0x5D, 0x19, 0x73)
    case 18 => Pick(i % 8, 0x60, 0x81, 0x4F, 0xDC, 0x22, 0x2A, 0x90, 0x88)
    case 19 => Pick(i % 8, 0x46, 0xEE, 0xB8, 0x14, 0xDE, 0x5E, 0x0B, 0xDB)
    case 20 => Pick(i % 8, 0xE0, 0x32, 0x3A, 0x0A, 0x49, 0x06, 0x24, 0x5C)
    case 21 => Pick(i % 8, 0xC2, 0xD3, 0xAC, 0x62, 0x91, 0x95, 0xE4, 0x79)
    case 22 => Pick(i % 8, 0xE7, 0xC8, 0x37, 0x6D, 0x8D, 0xD5, 0x4E, 0xA9)
    case 23 => Pick(i % 8, 0x6C, 0x56, 0xF4, 0xEA, 0x65, 0x7A, 0xAE, 0x08)
    case 24 => Pick(i % 8, 0xBA, 0x78, 0x25, 0x2E, 0x1C, 0xA6, 0xB4, 0xC6)
    case 25 => Pick(i % 8, 0xE8, 0xDD, 0x74, 0x1F, 0x4B, 0xBD, 0x8B, 0x8A)
    case 26 => Pick(i % 8, 0x70, 0x3E, 0xB5, 0x66, 0x48, 0x03, 0xF6, 0x0E)
    case 27 => Pick(i % 8, 0x61, 0x35, 0x57, 0xB9, 0x86, 0xC1, 0x1D, 0x9E)
    case 28 => Pick(i % 8, 0xE1, 0xF8, 0x98, 0x11, 0x69, 0xD9, 0x8E, 0x94)
    case 29 => Pick(i % 8, 0x9B, 0x1E, 0x87, 0xE9, 0xCE, 0x55, 0x28, 0xDF)
    case 30 => Pick(i % 8, 0x8C, 0xA1, 0x89, 0x0D, 0xBF, 0xE6, 0x42, 0x68)
    case 31 => Pick(i % 8, 0x41, 0x99, 0x2D, 0x0F, 0xB0, 0x54, 0xBB, 0x16)
    case _ => 0
  }

  /** The table of the decryption. */
  function InvSBox(i: int): int {
    match i / 8
    case 0 => Pick(i % 8, 0x52, 0x09, 0x6A, 0xD5, 0x30, 0x36, 0xA5, 0x38)
    case 1 => Pick(i % 8, 0xBF, 0x40, 0xA3, 0x9E, 0x81, 0xF3, 0xD7, 0xFB)
    case 2 => Pick(i % 8, 0x7C, 0xE3, 0x39, 0x82, 0x9B, 0x2F, 0xFF, 0x87)
    case 3 => Pick(i % 8, 0x34, 0x8E, 0x43, 0x44, 0xC4, 0xDE, 0xE9, 0xCB)
    case 4 => Pick(i % 8, 0x54, 0x7B, 0x94, 0x32, 0xA6, 0xC2, 0x23, 0x3D)
    case 5 => Pick(i % 8, 0xEE, 0x4C, 0x95, 0x0B, 0x42, 0xFA, 0xC3, 0x4E)
    case 6 => Pick(i % 8, 0x08, 0x2E, 0xA1, 0x66, 0x28, 0xD9, 0x24, 0xB2)
    case 7 => Pick(i % 8, 0x76, 0x5B, 0xA2, 0x49, 0x6D, 0x8B, 0xD1, 0x25)
    case 8 => Pick(i % 8, 0x72, 0xF8, 0xF6, 0x64, 0x86, 0x68, 0x98, 0x16)
    case 9 => Pick(i % 8, 0xD4, 0xA4, 0x5C, 0xCC, 0x5D, 0x65, 0xB6, 0x92)
    case 10 => Pick(i % 8, 0x6C, 0x70, 0x48, 0x50, 0xFD, 0xED, 0xB9, 0xDA)
    case 11 => Pick(i % 8, 0x5E, 0x15, 0x46, 0x57, 0xA7, 0x8D, 0x9D, 0x84)
    case 12 => Pick(i % 8, 0x90, 0xD8, 0xAB, 0x00, 0x8C, 0xBC, 0xD3, 0x0A)
    case 13 => Pick(i % 8, 0xF7, 0xE4, 0x58, 0x05, 0xB8, 0xB3, 0x45, 0x06)
    case 14 => Pick(i % 8, 0xD0, 0x2C, 0x1E, 0x8F, 0xCA, 0x3F, 0x0F, 0x02)
    case 15 => Pick(i % 8, 0xC1, 0xAF, 0xBD, 0x03, 0x01, 0x13, 0x8A, 0x6B)
    case 16 => Pick(i % 8, 0x3A, 0x91, 0x11, 0x41, 0x4F, 0x67, 0xDC, 0xEA)
    case 17 => Pick(i % 8, 0x97, 0xF2, 0xCF, 0xCE, 0xF0, 0xB4, 0xE6, 0x73)
    case 18 => Pick(i % 8, 0x96, 0xAC, 0x74, 0x22, 0xE7, 0xAD, 0x35, 0x85)
    case 19 => Pick(i % 8, 0xE2, 0xF9, 0x37, 0xE8, 0x1C, 0x75, 0xDF, 0x6E)
    case 20 => Pick(i % 8, 0x47, 0xF1, 0x1A, 0x71, 0x1D, 0x29, 0xC5, 0x89)
    case 21 => Pick(i % 8, 0x6F, 0xB7, 0x62, 0x0E, 0xAA, 0x18, 0xBE, 0x1B)
    case 22 => Pick(i % 8, 0xFC, 0x56, 0x3E, 0x4B, 0xC6, 0xD2, 0x79, 0x20)
    case 23 => Pick(i % 8, 0x9A, 0xDB, 0xC0, 0xFE, 0x78, 0xCD, 0x5A, 0xF4)
    case 24 => Pick(i % 8, 0x1F, 0xDD, 0xA8, 0x33, 0x88, 0x07, 0xC7, 0x31)
    case 25 => Pick(i % 8, 0xB1, 0x12, 0x10, 0x59, 0x27, 0x80, 0xEC, 0x5F)
    case 26 => Pick(i % 8, 0x60, 0x51, 0x7F, 0xA9, 0x19, 0xB5, 0x4A, 0x0D)
    case 27 => Pick(i % 8, 0x2D, 0xE5, 0x7A, 0x9F, 0x93, 0xC9, 0x9C, 0xEF)
    case 28 => Pick(i % 8, 0xA0, 0xE0, 0x3B, 0x4D, 0xAE, 0x2A, 0xF5, 0xB0)
    case 29 => Pick(i % 8, 0xC8, 0xEB, 0xBB, 0x3C, 0x83, 0x53, 0x99, 0x61)
    case 30 => Pick(i % 8, 0x17, 0x2B, 0x04, 0x7E, 0xBA, 0x77, 0xD6, 0x26)
    case 31 => Pick(i % 8, 0xE1, 0x69, 0x14, 0x63, 0x55, 0x21, 0x0C, 0x7D)
    case _ => 0
  }

  predicate Undone(i: int) {
    0 <= SBox(i) < 256 && InvSBox(SBox(i)) == i
  }

  lemma {:induction false} Undone0(i: int)
    requires 0 <= i < 32
    ensures Undone(i)
  {
  }

  lemma {:induction false} Undone32(i: int)
    requires 32 <= i < 64
    ensures Undone(i)
  {
  }

  lemma {:induction false} Undone64(i: int)
    requires 64 <= i < 96
    ensures Undone(i)
  {
  }

  lemma {:induction false} Undone96(i: int)
    requires 96 <= i < 128
    ensures Undone(i)
  {
  }

  lemma {:induction false} Undone128(i: int)
    requires 128 <= i < 160
    ensures Undone(i)
  {
  }

  lemma {:induction false} Undone160(i: int)
    requires 160 <= i < 192
    ensures Undone(i)
  {
  }

  lemma {:induction false} Undone192(i: int)
    requires 192 <= i < 224
    ensures Undone(i)
  {
  }

  lemma {:induction false} Undone224(i: int)
    requires 224 <= i < 256
    ensures Undone(i)
  {
  }

  lemma {:induction false} InverseTables(i: int)
    requires 0 <= i < 256
    ensures 0 <= SBox(i) < 256 && InvSBox(SBox(i)) == i
  {
    if i < 32 { Undone0(i); }
    else if i < 64 { Undone32(i); }
    else if i < 96 { Undone64(i); }
    else if i < 128 { Undone96(i); }
    else if i < 160 { Undone128(i); }
    else if i < 192 { Undone160(i); }
    else if i < 224 { Undone192(i); }
    else { Undone224(i); }
  }
}
