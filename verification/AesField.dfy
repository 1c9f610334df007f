// Multiplication in GF(2^8) and what the tables of AES are in it: the S-box is the affine map of
// the inverse, MixColumns and InvMixColumns are circulant matrices (sections 4.2 and 5 of
// FIPS 197).

module AesField {
  import opened Bytes
  import opened AesBox
  import opened AesSpec

  // ---------------------------------------------------------------- products

  /** a times b: the sum of a times each power of x in b, where multiplying by x is a shift that
      takes away x^8 + x^4 + x^3 + x + 1 if there is an x^8. */
  function Times8(a: Byte, b: Byte): Byte {
    var a1 := (a << 1) ^ (if a & 0x80 == 0 then 0 else 0x1b);
    var a2 := (a1 << 1) ^ (if a1 & 0x80 == 0 then 0 else 0x1b);
    var a3 := (a2 << 1) ^ (if a2 & 0x80 == 0 then 0 else 0x1b);
    var a4 := (a3 << 1) ^ (if a3 & 0x80 == 0 then 0 else 0x1b);
    var a5 := (a4 << 1) ^ (if a4 & 0x80 == 0 then 0 else 0x1b);
    var a6 := (a5 << 1) ^ (if a5 & 0x80 == 0 then 0 else 0x1b);
    var a7 := (a6 << 1) ^ (if a6 & 0x80 == 0 then 0 else 0x1b);
    (if b & 1 == 0 then 0 else a) ^ (if b & 2 == 0 then 0 else a1) ^
    (if b & 4 == 0 then 0 else a2) ^ (if b & 8 == 0 then 0 else a3) ^
    (if b & 16 == 0 then 0 else a4) ^ (if b & 32 == 0 then 0 else a5) ^
    (if b & 64 == 0 then 0 else a6) ^ (if b & 128 == 0 then 0 else a7)
  }

  lemma SmallProducts(a: Byte)
    ensures Times8(a, 1) == a && Times8(a, 2) == Dbl(a) && Times8(a, 3) == Mul3(a)
  {
  }

  lemma Product9(a: Byte)
    ensures Times8(a, 9) == Mul9(a)
  {
  }

  lemma Halves(a: Byte, b: Byte)
    requires a & 0x0f == b & 0x0f && a & 0xf0 == b & 0xf0
    ensures a == b
  {
  }

  lemma Product11Low(a: Byte)
    ensures Times8(a, 11) & 0x0f == Mul11(a) & 0x0f
  {
  }

  lemma Product11High(a: Byte)
    ensures Times8(a, 11) & 0xf0 == Mul11(a) & 0xf0
  {
  }

  lemma Product11(a: Byte)
    ensures Times8(a, 11) == Mul11(a)
  {
    hide Times8, Mul11;
    Product11Low(a);
    Product11High(a);
    Halves(Times8(a, 11), Mul11(a));
  }

  lemma Product13Low(a: Byte)
    ensures Times8(a, 13) & 0x0f == Mul13(a) & 0x0f
  {
  }

  lemma Product13High(a: Byte)
    ensures Times8(a, 13) & 0xf0 == Mul13(a) & 0xf0
  {
  }

  lemma Product13(a: Byte)
    ensures Times8(a, 13) == Mul13(a)
  {
    hide Times8, Mul13;
    Product13Low(a);
    Product13High(a);
    Halves(Times8(a, 13), Mul13(a));
  }

  lemma Product14Low(a: Byte)
    ensures Times8(a, 14) & 0x0f == Mul14(a) & 0x0f
  {
  }

  lemma Product14High(a: Byte)
    ensures Times8(a, 14) & 0xf0 == Mul14(a) & 0xf0
  {
  }

  lemma Product14(a: Byte)
    ensures Times8(a, 14) == Mul14(a)
  {
    hide Times8, Mul14;
    Product14Low(a);
    Product14High(a);
    Halves(Times8(a, 14), Mul14(a));
  }

  /** The factors of MixColumns and InvMixColumns are what their names say. */
  lemma Products(a: Byte)
    ensures Times8(a, 1) == a && Times8(a, 2) == Dbl(a) && Times8(a, 3) == Mul3(a) && Times8(a, 9) == Mul9(a)
    ensures Times8(a, 11) == Mul11(a) && Times8(a, 13) == Mul13(a) && Times8(a, 14) == Mul14(a)
  {
    hide Times8, Dbl, Mul3, Mul9, Mul11, Mul13, Mul14;
    SmallProducts(a);
    Product9(a);
    Product11(a);
    Product13(a);
    Product14(a);
  }

  // ---------------------------------------------------------------- matrices

  /** Row r and column c of a state. */
  function At(s: State, r: nat, c: nat): Byte
    requires r < 4 && c < 4
  {
    var col := if c == 0 then s.c0 else if c == 1 then s.c1 else if c == 2 then s.c2 else s.c3;
    if r == 0 then col.b0 else if r == 1 then col.b1 else if r == 2 then col.b2 else col.b3
  }

  /** SubBytes and ShiftRows: row r moves r places to the left. */
  lemma SubShiftAt(s: State, r: nat, c: nat)
    requires r < 4 && c < 4
    ensures At(SubShift(s), r, c) == S(At(s, r, (c + r) % 4))
    ensures At(InvSubShift(s), r, (c + r) % 4) == Si(At(s, r, c))
  {
    hide S, Si;
  }

  /** MixColumns is the circulant matrix of 2, 3, 1, 1 (equation 5.6). */
  lemma MixIs(s: Col)
    ensures Mix(s).b0 == X4(Times8(s.b0, 2), Times8(s.b1, 3), Times8(s.b2, 1), Times8(s.b3, 1))
    ensures Mix(s).b1 == X4(Times8(s.b0, 1), Times8(s.b1, 2), Times8(s.b2, 3), Times8(s.b3, 1))
    ensures Mix(s).b2 == X4(Times8(s.b0, 1), Times8(s.b1, 1), Times8(s.b2, 2), Times8(s.b3, 3))
    ensures Mix(s).b3 == X4(Times8(s.b0, 3), Times8(s.b1, 1), Times8(s.b2, 1), Times8(s.b3, 2))
  {
    hide Times8, Dbl, Mul3, X4;
    Products(s.b0);
    Products(s.b1);
    Products(s.b2);
    Products(s.b3);
    Turns(Dbl(s.b1), Mul3(s.b2), s.b3, s.b0);
    Turns(Dbl(s.b2), Mul3(s.b3), s.b0, s.b1);
    Turns(Dbl(s.b3), Mul3(s.b0), s.b1, s.b2);
  }

  /** InvMixColumns is the circulant matrix of 14, 11, 13, 9 (equation 5.10). */
  lemma InvMixIs(s: Col)
    ensures InvMix(s).b0 == X4(Times8(s.b0, 14), Times8(s.b1, 11), Times8(s.b2, 13), Times8(s.b3, 9))
    ensures InvMix(s).b1 == X4(Times8(s.b0, 9), Times8(s.b1, 14), Times8(s.b2, 11), Times8(s.b3, 13))
    ensures InvMix(s).b2 == X4(Times8(s.b0, 13), Times8(s.b1, 9), Times8(s.b2, 14), Times8(s.b3, 11))
    ensures InvMix(s).b3 == X4(Times8(s.b0, 11), Times8(s.b1, 13), Times8(s.b2, 9), Times8(s.b3, 14))
  {
    hide Times8, Mul9, Mul11, Mul13, Mul14, X4;
    Products(s.b0);
    Products(s.b1);
    Products(s.b2);
    Products(s.b3);
    Turns(Mul14(s.b1), Mul11(s.b2), Mul13(s.b3), Mul9(s.b0));
    Turns(Mul14(s.b2), Mul11(s.b3), Mul13(s.b0), Mul9(s.b1));
    Turns(Mul14(s.b3), Mul11(s.b0), Mul13(s.b1), Mul9(s.b2));
  }

  /** A sum of four in the orders of the four rows. */
  lemma Turns(a: Byte, b: Byte, c: Byte, d: Byte)
    ensures X4(a, b, c, d) == X4(d, a, b, c) == X4(c, d, a, b) == X4(b, c, d, a)
  {
    hide Xor8, X4;
    Rotate(a, b, c, d);
    Rotate(d, a, b, c);
    Rotate(c, d, a, b);
  }

  // ---------------------------------------------------------------- the S-box

  /** The affine map of section 5.1.1: each bit is the sum of five bits and a constant. */
  function Affine(b: Byte): Byte {
    b ^ ((b << 1) | (b >> 7)) ^ ((b << 2) | (b >> 6)) ^ ((b << 3) | (b >> 5)) ^ ((b << 4) | (b >> 4)) ^ 0x63
  }

  /** The value of S goes back, by the affine map, to the inverse of x, or to 0 for 0. */
  predicate FromInverse(x: Byte, y: Byte, s: Byte) {
    s == Affine(y) && (if x == 0 then y == 0 else Times8(x, y) == 1)
  }

  /** The affine map, undone. */
  function Unaffine(s: Byte): Byte {
    ((s << 1) | (s >> 7)) ^ ((s << 3) | (s >> 5)) ^ ((s << 6) | (s >> 2)) ^ 0x05
  }

  lemma AffineUndone(s: Byte)
    ensures Affine(Unaffine(s)) == s
  {
  }

  lemma Inverses0()
    ensures Unaffine(0x63) == 0x00 && Unaffine(0x7c) == 0x01 && Unaffine(0x77) == 0x8d && Unaffine(0x7b) == 0xf6
    ensures Unaffine(0xf2) == 0xcb && Unaffine(0x6b) == 0x52 && Unaffine(0x6f) == 0x7b && Unaffine(0xc5) == 0xd1
    ensures Unaffine(0x30) == 0xe8 && Unaffine(0x01) == 0x4f && Unaffine(0x67) == 0x29 && Unaffine(0x2b) == 0xc0
    ensures Unaffine(0xfe) == 0xb0 && Unaffine(0xd7) == 0xe1 && Unaffine(0xab) == 0xe5 && Unaffine(0x76) == 0xc7
    ensures Times8(0x01, 0x01) == 1 && Times8(0x02, 0x8d) == 1 && Times8(0x03, 0xf6) == 1 && Times8(0x04, 0xcb) == 1
    ensures Times8(0x05, 0x52) == 1 && Times8(0x06, 0x7b) == 1 && Times8(0x07, 0xd1) == 1 && Times8(0x08, 0xe8) == 1
    ensures Times8(0x09, 0x4f) == 1 && Times8(0x0a, 0x29) == 1 && Times8(0x0b, 0xc0) == 1 && Times8(0x0c, 0xb0) == 1
    ensures Times8(0x0d, 0xe1) == 1 && Times8(0x0e, 0xe5) == 1 && Times8(0x0f, 0xc7) == 1
  {
  }

  lemma Row0(x: Byte)
    requires 0x00 <= x <= 0x0f
    ensures FromInverse(x, Unaffine(S0(x)), S0(x))
  {
    hide Times8, Affine, Unaffine;
    Inverses0();
    AffineUndone(S0(x));
  }

  lemma Inverses1()
    ensures Unaffine(0xca) == 0x74 && Unaffine(0x82) == 0xb4 && Unaffine(0xc9) == 0xaa && Unaffine(0x7d) == 0x4b
    ensures Unaffine(0xfa) == 0x99 && Unaffine(0x59) == 0x2b && Unaffine(0x47) == 0x60 && Unaffine(0xf0) == 0x5f
    ensures Unaffine(0xad) == 0x58 && Unaffine(0xd4) == 0x3f && Unaffine(0xa2) == 0xfd && Unaffine(0xaf) == 0xcc
    ensures Unaffine(0x9c) == 0xff && Unaffine(0xa4) == 0x40 && Unaffine(0x72) == 0xee && Unaffine(0xc0) == 0xb2
    ensures Times8(0x10, 0x74) == 1 && Times8(0x11, 0xb4) == 1 && Times8(0x12, 0xaa) == 1 && Times8(0x13, 0x4b) == 1
    ensures Times8(0x14, 0x99) == 1 && Times8(0x15, 0x2b) == 1 && Times8(0x16, 0x60) == 1 && Times8(0x17, 0x5f) == 1
    ensures Times8(0x18, 0x58) == 1 && Times8(0x19, 0x3f) == 1 && Times8(0x1a, 0xfd) == 1 && Times8(0x1b, 0xcc) == 1
    ensures Times8(0x1c, 0xff) == 1 && Times8(0x1d, 0x40) == 1 && Times8(0x1e, 0xee) == 1 && Times8(0x1f, 0xb2) == 1
  {
  }

  lemma Row1(x: Byte)
    requires 0x10 <= x <= 0x1f
    ensures FromInverse(x, Unaffine(S1(x)), S1(x))
  {
    hide Times8, Affine, Unaffine;
    Inverses1();
    AffineUndone(S1(x));
  }

  lemma Inverses2()
    ensures Unaffine(0xb7) == 0x3a && Unaffine(0xfd) == 0x6e && Unaffine(0x93) == 0x5a && Unaffine(0x26) == 0xf1
    ensures Unaffine(0x36) == 0x55 && Unaffine(0x3f) == 0x4d && Unaffine(0xf7) == 0xa8 && Unaffine(0xcc) == 0xc9
    ensures Unaffine(0x34) == 0xc1 && Unaffine(0xa5) == 0x0a && Unaffine(0xe5) == 0x98 && Unaffine(0xf1) == 0x15
    ensures Unaffine(0x71) == 0x30 && Unaffine(0xd8) == 0x44 && Unaffine(0x31) == 0xa2 && Unaffine(0x15) == 0xc2
    ensures Times8(0x20, 0x3a) == 1 && Times8(0x21, 0x6e) == 1 && Times8(0x22, 0x5a) == 1 && Times8(0x23, 0xf1) == 1
    ensures Times8(0x24, 0x55) == 1 && Times8(0x25, 0x4d) == 1 && Times8(0x26, 0xa8) == 1 && Times8(0x27, 0xc9) == 1
    ensures Times8(0x28, 0xc1) == 1 && Times8(0x29, 0x0a) == 1 && Times8(0x2a, 0x98) == 1 && Times8(0x2b, 0x15) == 1
    ensures Times8(0x2c, 0x30) == 1 && Times8(0x2d, 0x44) == 1 && Times8(0x2e, 0xa2) == 1 && Times8(0x2f, 0xc2) == 1
  {
  }

  lemma Row2(x: Byte)
    requires 0x20 <= x <= 0x2f
    ensures FromInverse(x, Unaffine(S2(x)), S2(x))
  {
    hide Times8, Affine, Unaffine;
    Inverses2();
    AffineUndone(S2(x));
  }

  lemma Inverses3()
    ensures Unaffine(0x04) == 0x2c && Unaffine(0xc7) == 0x45 && Unaffine(0x23) == 0x92 && Unaffine(0xc3) == 0x6c
    ensures Unaffine(0x18) == 0xf3 && Unaffine(0x96) == 0x39 && Unaffine(0x05) == 0x66 && Unaffine(0x9a) == 0x42
    ensures Unaffine(0x07) == 0xf2 && Unaffine(0x12) == 0x35 && Unaffine(0x80) == 0x20 && Unaffine(0xe2) == 0x6f
    ensures Unaffine(0xeb) == 0x77 && Unaffine(0x27) == 0xbb && Unaffine(0xb2) == 0x59 && Unaffine(0x75) == 0x19
    ensures Times8(0x30, 0x2c) == 1 && Times8(0x31, 0x45) == 1 && Times8(0x32, 0x92) == 1 && Times8(0x33, 0x6c) == 1
    ensures Times8(0x34, 0xf3) == 1 && Times8(0x35, 0x39) == 1 && Times8(0x36, 0x66) == 1 && Times8(0x37, 0x42) == 1
    ensures Times8(0x38, 0xf2) == 1 && Times8(0x39, 0x35) == 1 && Times8(0x3a, 0x20) == 1 && Times8(0x3b, 0x6f) == 1
    ensures Times8(0x3c, 0x77) == 1 && Times8(0x3d, 0xbb) == 1 && Times8(0x3e, 0x59) == 1 && Times8(0x3f, 0x19) == 1
  {
  }

  lemma Row3(x: Byte)
    requires 0x30 <= x <= 0x3f
    ensures FromInverse(x, Unaffine(S3(x)), S3(x))
  {
    hide Times8, Affine, Unaffine;
    Inverses3();
    AffineUndone(S3(x));
  }

  lemma Inverses4()
    ensures Unaffine(0x09) == 0x1d && Unaffine(0x83) == 0xfe && Unaffine(0x2c) == 0x37 && Unaffine(0x1a) == 0x67
    ensures Unaffine(0x1b) == 0x2d && Unaffine(0x6e) == 0x31 && Unaffine(0x5a) == 0xf5 && Unaffine(0xa0) == 0x69
    ensures Unaffine(0x52) == 0xa7 && Unaffine(0x3b) == 0x64 && Unaffine(0xd6) == 0xab && Unaffine(0xb3) == 0x13
    ensures Unaffine(0x29) == 0x54 && Unaffine(0xe3) == 0x25 && Unaffine(0x2f) == 0xe9 && Unaffine(0x84) == 0x09
    ensures Times8(0x40, 0x1d) == 1 && Times8(0x41, 0xfe) == 1 && Times8(0x42, 0x37) == 1 && Times8(0x43, 0x67) == 1
    ensures Times8(0x44, 0x2d) == 1 && Times8(0x45, 0x31) == 1 && Times8(0x46, 0xf5) == 1 && Times8(0x47, 0x69) == 1
    ensures Times8(0x48, 0xa7) == 1 && Times8(0x49, 0x64) == 1 && Times8(0x4a, 0xab) == 1 && Times8(0x4b, 0x13) == 1
    ensures Times8(0x4c, 0x54) == 1 && Times8(0x4d, 0x25) == 1 && Times8(0x4e, 0xe9) == 1 && Times8(0x4f, 0x09) == 1
  {
  }

  lemma Row4(x: Byte)
    requires 0x40 <= x <= 0x4f
    ensures FromInverse(x, Unaffine(S4(x)), S4(x))
  {
    hide Times8, Affine, Unaffine;
    Inverses4();
    AffineUndone(S4(x));
  }

  lemma Inverses5()
    ensures Unaffine(0x53) == 0xed && Unaffine(0xd1) == 0x5c && Unaffine(0x00) == 0x05 && Unaffine(0xed) == 0xca
    ensures Unaffine(0x20) == 0x4c && Unaffine(0xfc) == 0x24 && Unaffine(0xb1) == 0x87 && Unaffine(0x5b) == 0xbf
    ensures Unaffine(0x6a) == 0x18 && Unaffine(0xcb) == 0x3e && Unaffine(0xbe) == 0x22 && Unaffine(0x39) == 0xf0
    ensures Unaffine(0x4a) == 0x51 && Unaffine(0x4c) == 0xec && Unaffine(0x58) == 0x61 && Unaffine(0xcf) == 0x17
    ensures Times8(0x50, 0xed) == 1 && Times8(0x51, 0x5c) == 1 && Times8(0x52, 0x05) == 1 && Times8(0x53, 0xca) == 1
    ensures Times8(0x54, 0x4c) == 1 && Times8(0x55, 0x24) == 1 && Times8(0x56, 0x87) == 1 && Times8(0x57, 0xbf) == 1
    ensures Times8(0x58, 0x18) == 1 && Times8(0x59, 0x3e) == 1 && Times8(0x5a, 0x22) == 1 && Times8(0x5b, 0xf0) == 1
    ensures Times8(0x5c, 0x51) == 1 && Times8(0x5d, 0xec) == 1 && Times8(0x5e, 0x61) == 1 && Times8(0x5f, 0x17) == 1
  {
  }

  lemma Row5(x: Byte)
    requires 0x50 <= x <= 0x5f
    ensures FromInverse(x, Unaffine(S5(x)), S5(x))
  {
    hide Times8, Affine, Unaffine;
    Inverses5();
    AffineUndone(S5(x));
  }

  lemma Inverses6()
    ensures Unaffine(0xd0) == 0x16 && Unaffine(0xef) == 0x5e && Unaffine(0xaa) == 0xaf && Unaffine(0xfb) == 0xd3
    ensures Unaffine(0x43) == 0x49 && Unaffine(0x4d) == 0xa6 && Unaffine(0x33) == 0x36 && Unaffine(0x85) == 0x43
    ensures Unaffine(0x45) == 0xf4 && Unaffine(0xf9) == 0x47 && Unaffine(0x02) == 0x91 && Unaffine(0x7f) == 0xdf
    ensures Unaffine(0x50) == 0x33 && Unaffine(0x3c) == 0x93 && Unaffine(0x9f) == 0x21 && Unaffine(0xa8) == 0x3b
    ensures Times8(0x60, 0x16) == 1 && Times8(0x61, 0x5e) == 1 && Times8(0x62, 0xaf) == 1 && Times8(0x63, 0xd3) == 1
    ensures Times8(0x64, 0x49) == 1 && Times8(0x65, 0xa6) == 1 && Times8(0x66, 0x36) == 1 && Times8(0x67, 0x43) == 1
    ensures Times8(0x68, 0xf4) == 1 && Times8(0x69, 0x47) == 1 && Times8(0x6a, 0x91) == 1 && Times8(0x6b, 0xdf) == 1
    ensures Times8(0x6c, 0x33) == 1 && Times8(0x6d, 0x93) == 1 && Times8(0x6e, 0x21) == 1 && Times8(0x6f, 0x3b) == 1
  {
  }

  lemma Row6(x: Byte)
    requires 0x60 <= x <= 0x6f
    ensures FromInverse(x, Unaffine(S6(x)), S6(x))
  {
    hide Times8, Affine, Unaffine;
    Inverses6();
    AffineUndone(S6(x));
  }

  lemma Inverses7()
    ensures Unaffine(0x51) == 0x79 && Unaffine(0xa3) == 0xb7 && Unaffine(0x40) == 0x97 && Unaffine(0x8f) == 0x85
    ensures Unaffine(0x92) == 0x10 && Unaffine(0x9d) == 0xb5 && Unaffine(0x38) == 0xba && Unaffine(0xf5) == 0x3c
    ensures Unaffine(0xbc) == 0xb6 && Unaffine(0xb6) == 0x70 && Unaffine(0xda) == 0xd0 && Unaffine(0x21) == 0x06
    ensures Unaffine(0x10) == 0xa1 && Unaffine(0xff) == 0xfa && Unaffine(0xf3) == 0x81 && Unaffine(0xd2) == 0x82
    ensures Times8(0x70, 0x79) == 1 && Times8(0x71, 0xb7) == 1 && Times8(0x72, 0x97) == 1 && Times8(0x73, 0x85) == 1
    ensures Times8(0x74, 0x10) == 1 && Times8(0x75, 0xb5) == 1 && Times8(0x76, 0xba) == 1 && Times8(0x77, 0x3c) == 1
    ensures Times8(0x78, 0xb6) == 1 && Times8(0x79, 0x70) == 1 && Times8(0x7a, 0xd0) == 1 && Times8(0x7b, 0x06) == 1
    ensures Times8(0x7c, 0xa1) == 1 && Times8(0x7d, 0xfa) == 1 && Times8(0x7e, 0x81) == 1 && Times8(0x7f, 0x82) == 1
  {
  }

  lemma Row7(x: Byte)
    requires 0x70 <= x <= 0x7f
    ensures FromInverse(x, Unaffine(S7(x)), S7(x))
  {
    hide Times8, Affine, Unaffine;
    Inverses7();
    AffineUndone(S7(x));
  }

  lemma Inverses8()
    ensures Unaffine(0xcd) == 0x83 && Unaffine(0x0c) == 0x7e && Unaffine(0x13) == 0x7f && Unaffine(0xec) == 0x80
    ensures Unaffine(0x5f) == 0x96 && Unaffine(0x97) == 0x73 && Unaffine(0x44) == 0xbe && Unaffine(0x17) == 0x56
    ensures Unaffine(0xc4) == 0x9b && Unaffine(0xa7) == 0x9e && Unaffine(0x7e) == 0x95 && Unaffine(0x3d) == 0xd9
    ensures Unaffine(0x64) == 0xf7 && Unaffine(0x5d) == 0x02 && Unaffine(0x19) == 0xb9 && Unaffine(0x73) == 0xa4
    ensures Times8(0x80, 0x83) == 1 && Times8(0x81, 0x7e) == 1 && Times8(0x82, 0x7f) == 1 && Times8(0x83, 0x80) == 1
    ensures Times8(0x84, 0x96) == 1 && Times8(0x85, 0x73) == 1 && Times8(0x86, 0xbe) == 1 && Times8(0x87, 0x56) == 1
    ensures Times8(0x88, 0x9b) == 1 && Times8(0x89, 0x9e) == 1 && Times8(0x8a, 0x95) == 1 && Times8(0x8b, 0xd9) == 1
    ensures Times8(0x8c, 0xf7) == 1 && Times8(0x8d, 0x02) == 1 && Times8(0x8e, 0xb9) == 1 && Times8(0x8f, 0xa4) == 1
  {
  }

  lemma Row8(x: Byte)
    requires 0x80 <= x <= 0x8f
    ensures FromInverse(x, Unaffine(S8(x)), S8(x))
  {
    hide Times8, Affine, Unaffine;
    Inverses8();
    AffineUndone(S8(x));
  }

  lemma Inverses9()
    ensures Unaffine(0x60) == 0xde && Unaffine(0x81) == 0x6a && Unaffine(0x4f) == 0x32 && Unaffine(0xdc) == 0x6d
    ensures Unaffine(0x22) == 0xd8 && Unaffine(0x2a) == 0x8a && Unaffine(0x90) == 0x84 && Unaffine(0x88) == 0x72
    ensures Unaffine(0x46) == 0x2a && Unaffine(0xee) == 0x14 && Unaffine(0xb8) == 0x9f && Unaffine(0x14) == 0x88
    ensures Unaffine(0xde) == 0xf9 && Unaffine(0x5e) == 0xdc && Unaffine(0x0b) == 0x89 && Unaffine(0xdb) == 0x9a
    ensures Times8(0x90, 0xde) == 1 && Times8(0x91, 0x6a) == 1 && Times8(0x92, 0x32) == 1 && Times8(0x93, 0x6d) == 1
    ensures Times8(0x94, 0xd8) == 1 && Times8(0x95, 0x8a) == 1 && Times8(0x96, 0x84) == 1 && Times8(0x97, 0x72) == 1
    ensures Times8(0x98, 0x2a) == 1 && Times8(0x99, 0x14) == 1 && Times8(0x9a, 0x9f) == 1 && Times8(0x9b, 0x88) == 1
    ensures Times8(0x9c, 0xf9) == 1 && Times8(0x9d, 0xdc) == 1 && Times8(0x9e, 0x89) == 1 && Times8(0x9f, 0x9a) == 1
  {
  }

  lemma Row9(x: Byte)
    requires 0x90 <= x <= 0x9f
    ensures FromInverse(x, Unaffine(S9(x)), S9(x))
  {
    hide Times8, Affine, Unaffine;
    Inverses9();
    AffineUndone(S9(x));
  }

  lemma InversesA()
    ensures Unaffine(0xe0) == 0xfb && Unaffine(0x32) == 0x7c && Unaffine(0x3a) == 0x2e && Unaffine(0x0a) == 0xc3
    ensures Unaffine(0x49) == 0x8f && Unaffine(0x06) == 0xb8 && Unaffine(0x24) == 0x65 && Unaffine(0x5c) == 0x48
    ensures Unaffine(0xc2) == 0x26 && Unaffine(0xd3) == 0xc8 && Unaffine(0xac) == 0x12 && Unaffine(0x62) == 0x4a
    ensures Unaffine(0x91) == 0xce && Unaffine(0x95) == 0xe7 && Unaffine(0xe4) == 0xd2 && Unaffine(0x79) == 0x62
    ensures Times8(0xa0, 0xfb) == 1 && Times8(0xa1, 0x7c) == 1 && Times8(0xa2, 0x2e) == 1 && Times8(0xa3, 0xc3) == 1
    ensures Times8(0xa4, 0x8f) == 1 && Times8(0xa5, 0xb8) == 1 && Times8(0xa6, 0x65) == 1 && Times8(0xa7, 0x48) == 1
    ensures Times8(0xa8, 0x26) == 1 && Times8(0xa9, 0xc8) == 1 && Times8(0xaa, 0x12) == 1 && Times8(0xab, 0x4a) == 1
    ensures Times8(0xac, 0xce) == 1 && Times8(0xad, 0xe7) == 1 && Times8(0xae, 0xd2) == 1 && Times8(0xaf, 0x62) == 1
  {
  }

  lemma RowA(x: Byte)
    requires 0xa0 <= x <= 0xaf
    ensures FromInverse(x, Unaffine(SA(x)), SA(x))
  {
    hide Times8, Affine, Unaffine;
    InversesA();
    AffineUndone(SA(x));
  }

  lemma InversesB()
    ensures Unaffine(0xe7) == 0x0c && Unaffine(0xc8) == 0xe0 && Unaffine(0x37) == 0x1f && Unaffine(0x6d) == 0xef
    ensures Unaffine(0x8d) == 0x11 && Unaffine(0xd5) == 0x75 && Unaffine(0x4e) == 0x78 && Unaffine(0xa9) == 0x71
    ensures Unaffine(0x6c) == 0xa5 && Unaffine(0x56) == 0x8e && Unaffine(0xf4) == 0x76 && Unaffine(0xea) == 0x3d
    ensures Unaffine(0x65) == 0xbd && Unaffine(0x7a) == 0xbc && Unaffine(0xae) == 0x86 && Unaffine(0x08) == 0x57
    ensures Times8(0xb0, 0x0c) == 1 && Times8(0xb1, 0xe0) == 1 && Times8(0xb2, 0x1f) == 1 && Times8(0xb3, 0xef) == 1
    ensures Times8(0xb4, 0x11) == 1 && Times8(0xb5, 0x75) == 1 && Times8(0xb6, 0x78) == 1 && Times8(0xb7, 0x71) == 1
    ensures Times8(0xb8, 0xa5) == 1 && Times8(0xb9, 0x8e) == 1 && Times8(0xba, 0x76) == 1 && Times8(0xbb, 0x3d) == 1
    ensures Times8(0xbc, 0xbd) == 1 && Times8(0xbd, 0xbc) == 1 && Times8(0xbe, 0x86) == 1 && Times8(0xbf, 0x57) == 1
  {
  }

  lemma RowB(x: Byte)
    requires 0xb0 <= x <= 0xbf
    ensures FromInverse(x, Unaffine(SB(x)), SB(x))
  {
    hide Times8, Affine, Unaffine;
    InversesB();
    AffineUndone(SB(x));
  }

  lemma InversesC()
    ensures Unaffine(0xba) == 0x0b && Unaffine(0x78) == 0x28 && Unaffine(0x25) == 0x2f && Unaffine(0x2e) == 0xa3
    ensures Unaffine(0x1c) == 0xda && Unaffine(0xa6) == 0xd4 && Unaffine(0xb4) == 0xe4 && Unaffine(0xc6) == 0x0f
    ensures Unaffine(0xe8) == 0xa9 && Unaffine(0xdd) == 0x27 && Unaffine(0x74) == 0x53 && Unaffine(0x1f) == 0x04
    ensures Unaffine(0x4b) == 0x1b && Unaffine(0xbd) == 0xfc && Unaffine(0x8b) == 0xac && Unaffine(0x8a) == 0xe6
    ensures Times8(0xc0, 0x0b) == 1 && Times8(0xc1, 0x28) == 1 && Times8(0xc2, 0x2f) == 1 && Times8(0xc3, 0xa3) == 1
    ensures Times8(0xc4, 0xda) == 1 && Times8(0xc5, 0xd4) == 1 && Times8(0xc6, 0xe4) == 1 && Times8(0xc7, 0x0f) == 1
    ensures Times8(0xc8, 0xa9) == 1 && Times8(0xc9, 0x27) == 1 && Times8(0xca, 0x53) == 1 && Times8(0xcb, 0x04) == 1
    ensures Times8(0xcc, 0x1b) == 1 && Times8(0xcd, 0xfc) == 1 && Times8(0xce, 0xac) == 1 && Times8(0xcf, 0xe6) == 1
  {
  }

  lemma RowC(x: Byte)
    requires 0xc0 <= x <= 0xcf
    ensures FromInverse(x, Unaffine(SC(x)), SC(x))
  {
    hide Times8, Affine, Unaffine;
    InversesC();
    AffineUndone(SC(x));
  }

  lemma InversesD()
    ensures Unaffine(0x70) == 0x7a && Unaffine(0x3e) == 0x07 && Unaffine(0xb5) == 0xae && Unaffine(0x66) == 0x63
    ensures Unaffine(0x48) == 0xc5 && Unaffine(0x03) == 0xdb && Unaffine(0xf6) == 0xe2 && Unaffine(0x0e) == 0xea
    ensures Unaffine(0x61) == 0x94 && Unaffine(0x35) == 0x8b && Unaffine(0x57) == 0xc4 && Unaffine(0xb9) == 0xd5
    ensures Unaffine(0x86) == 0x9d && Unaffine(0xc1) == 0xf8 && Unaffine(0x1d) == 0x90 && Unaffine(0x9e) == 0x6b
    ensures Times8(0xd0, 0x7a) == 1 && Times8(0xd1, 0x07) == 1 && Times8(0xd2, 0xae) == 1 && Times8(0xd3, 0x63) == 1
    ensures Times8(0xd4, 0xc5) == 1 && Times8(0xd5, 0xdb) == 1 && Times8(0xd6, 0xe2) == 1 && Times8(0xd7, 0xea) == 1
    ensures Times8(0xd8, 0x94) == 1 && Times8(0xd9, 0x8b) == 1 && Times8(0xda, 0xc4) == 1 && Times8(0xdb, 0xd5) == 1
    ensures Times8(0xdc, 0x9d) == 1 && Times8(0xdd, 0xf8) == 1 && Times8(0xde, 0x90) == 1 && Times8(0xdf, 0x6b) == 1
  {
  }

  lemma RowD(x: Byte)
    requires 0xd0 <= x <= 0xdf
    ensures FromInverse(x, Unaffine(SD(x)), SD(x))
  {
    hide Times8, Affine, Unaffine;
    InversesD();
    AffineUndone(SD(x));
  }

  lemma InversesE()
    ensures Unaffine(0xe1) == 0xb1 && Unaffine(0xf8) == 0x0d && Unaffine(0x98) == 0xd6 && Unaffine(0x11) == 0xeb
    ensures Unaffine(0x69) == 0xc6 && Unaffine(0xd9) == 0x0e && Unaffine(0x8e) == 0xcf && Unaffine(0x94) == 0xad
    ensures Unaffine(0x9b) == 0x08 && Unaffine(0x1e) == 0x4e && Unaffine(0x87) == 0xd7 && Unaffine(0xe9) == 0xe3
    ensures Unaffine(0xce) == 0x5d && Unaffine(0x55) == 0x50 && Unaffine(0x28) == 0x1e && Unaffine(0xdf) == 0xb3
    ensures Times8(0xe0, 0xb1) == 1 && Times8(0xe1, 0x0d) == 1 && Times8(0xe2, 0xd6) == 1 && Times8(0xe3, 0xeb) == 1
    ensures Times8(0xe4, 0xc6) == 1 && Times8(0xe5, 0x0e) == 1 && Times8(0xe6, 0xcf) == 1 && Times8(0xe7, 0xad) == 1
    ensures Times8(0xe8, 0x08) == 1 && Times8(0xe9, 0x4e) == 1 && Times8(0xea, 0xd7) == 1 && Times8(0xeb, 0xe3) == 1
    ensures Times8(0xec, 0x5d) == 1 && Times8(0xed, 0x50) == 1 && Times8(0xee, 0x1e) == 1 && Times8(0xef, 0xb3) == 1
  {
  }

  lemma RowE(x: Byte)
    requires 0xe0 <= x <= 0xef
    ensures FromInverse(x, Unaffine(SE(x)), SE(x))
  {
    hide Times8, Affine, Unaffine;
    InversesE();
    AffineUndone(SE(x));
  }

  lemma InversesF()
    ensures Unaffine(0x8c) == 0x5b && Unaffine(0xa1) == 0x23 && Unaffine(0x89) == 0x38 && Unaffine(0x0d) == 0x34
    ensures Unaffine(0xbf) == 0x68 && Unaffine(0xe6) == 0x46 && Unaffine(0x42) == 0x03 && Unaffine(0x68) == 0x8c
    ensures Unaffine(0x41) == 0xdd && Unaffine(0x99) == 0x9c && Unaffine(0x2d) == 0x7d && Unaffine(0x0f) == 0xa0
    ensures Unaffine(0xb0) == 0xcd && Unaffine(0x54) == 0x1a && Unaffine(0xbb) == 0x41 && Unaffine(0x16) == 0x1c
    ensures Times8(0xf0, 0x5b) == 1 && Times8(0xf1, 0x23) == 1 && Times8(0xf2, 0x38) == 1 && Times8(0xf3, 0x34) == 1
    ensures Times8(0xf4, 0x68) == 1 && Times8(0xf5, 0x46) == 1 && Times8(0xf6, 0x03) == 1 && Times8(0xf7, 0x8c) == 1
    ensures Times8(0xf8, 0xdd) == 1 && Times8(0xf9, 0x9c) == 1 && Times8(0xfa, 0x7d) == 1 && Times8(0xfb, 0xa0) == 1
    ensures Times8(0xfc, 0xcd) == 1 && Times8(0xfd, 0x1a) == 1 && Times8(0xfe, 0x41) == 1 && Times8(0xff, 0x1c) == 1
  {
  }

  lemma RowF(x: Byte)
    requires 0xf0 <= x <= 0xff
    ensures FromInverse(x, Unaffine(SF(x)), SF(x))
  {
    hide Times8, Affine, Unaffine;
    InversesF();
    AffineUndone(SF(x));
  }

  /** The S-box is the affine map of the inverse (section 5.1.1), 0 taking the place of its own. */
  lemma SIsAffine(x: Byte)
    ensures FromInverse(x, Unaffine(S(x)), S(x))
  {
    hide FromInverse, Unaffine, S0, S1, S2, S3, S4, S5, S6, S7, S8, S9, SA, SB, SC, SD, SE, SF;
    if x < 0x10 {
      Row0(x);
    } else if x < 0x20 {
      Row1(x);
    } else if x < 0x30 {
      Row2(x);
    } else if x < 0x40 {
      Row3(x);
    } else if x < 0x50 {
      Row4(x);
    } else if x < 0x60 {
      Row5(x);
    } else if x < 0x70 {
      Row6(x);
    } else if x < 0x80 {
      Row7(x);
    } else if x < 0x90 {
      Row8(x);
    } else if x < 0xa0 {
      Row9(x);
    } else if x < 0xb0 {
      RowA(x);
    } else if x < 0xc0 {
      RowB(x);
    } else if x < 0xd0 {
      RowC(x);
    } else if x < 0xe0 {
      RowD(x);
    } else if x < 0xf0 {
      RowE(x);
    } else {
      RowF(x);
    }
  }
}
