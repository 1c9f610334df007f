// What the xor of four lookups in the tables of src/blockcipher/ciphers/aes/aes.c computes.

module AesWords {
  import opened Bytes
  import opened Words32
  import opened AesBox
  import opened AesSpec
  import opened AesTables

  // ---------------------------------------------------------------- sums of words

  function Xor32(a: Word32, b: Word32): Word32 {
    a ^ b
  }

  lemma ColOfXor(a: Word32, b: Word32)
    ensures ColOf(Xor32(a, b)) == XorCol(ColOf(a), ColOf(b))
  {
  }

  lemma Xor32Associates(a: Word32, b: Word32, c: Word32)
    ensures Xor32(Xor32(a, b), c) == Xor32(a, Xor32(b, c))
  {
  }

  // ---------------------------------------------------------------- one word of a round

  function XorAll(a: Word32, b: Word32, c: Word32, d: Word32, k: Word32): Word32 {
    Xor32(Xor32(Xor32(Xor32(a, b), c), d), k)
  }

  /** e0[a >> 24] ^ e1[(b >> 16) & 0xff] ^ e2[(c >> 8) & 0xff] ^ e3[d & 0xff] ^ k */
  function EncWord(a: Word32, b: Word32, c: Word32, d: Word32, k: Word32): Word32 {
    XorAll(E0(B0(a)), E1(B1(b)), E2(B2(c)), E3(B3(d)), k)
  }

  function DecWord(a: Word32, b: Word32, c: Word32, d: Word32, k: Word32): Word32 {
    XorAll(D0(B0(a)), D1(B1(b)), D2(B2(c)), D3(B3(d)), k)
  }

  function MaskTop(w: Word32): Word32 {
    w & 0xff000000
  }

  function MaskHigh(w: Word32): Word32 {
    w & 0x00ff0000
  }

  function MaskLow(w: Word32): Word32 {
    w & 0x0000ff00
  }

  function MaskBottom(w: Word32): Word32 {
    w & 0x000000ff
  }

  function EncLast(a: Word32, b: Word32, c: Word32, d: Word32, k: Word32): Word32 {
    XorAll(MaskTop(E4(B0(a))), MaskHigh(E4(B1(b))), MaskLow(E4(B2(c))), MaskBottom(E4(B3(d))), k)
  }

  function DecLast(a: Word32, b: Word32, c: Word32, d: Word32, k: Word32): Word32 {
    XorAll(MaskTop(D4(B0(a))), MaskHigh(D4(B1(b))), MaskLow(D4(B2(c))), MaskBottom(D4(B3(d))), k)
  }

  lemma ChainIsX4(p: Byte, q: Byte, r: Byte, s: Byte)
    ensures Xor8(Xor8(Xor8(p, q), r), s) == X4(p, q, r, s)
  {
    hide Xor8;
    XorAssociates(Xor8(p, q), r, s);
  }

  /** Adding up four columns and a key, byte by byte. */
  lemma ColOfAll(a: Col, b: Col, c: Col, d: Col, k: Word32)
    ensures ColOf(XorAll(Word(a), Word(b), Word(c), Word(d), k)) ==
            XorCol(Col(X4(a.b0, b.b0, c.b0, d.b0), X4(a.b1, b.b1, c.b1, d.b1),
                       X4(a.b2, b.b2, c.b2, d.b2), X4(a.b3, b.b3, c.b3, d.b3)), ColOf(k))
  {
    hide ColOf, Word, Xor32, Xor8, X4;
    var ab := Xor32(Word(a), Word(b));
    var abc := Xor32(ab, Word(c));
    ColOfWord(a);
    ColOfWord(b);
    ColOfWord(c);
    ColOfWord(d);
    ColOfXor(Word(a), Word(b));
    ColOfXor(ab, Word(c));
    ColOfXor(abc, Word(d));
    ColOfXor(Xor32(abc, Word(d)), k);
    ChainIsX4(a.b0, b.b0, c.b0, d.b0);
    ChainIsX4(a.b1, b.b1, c.b1, d.b1);
    ChainIsX4(a.b2, b.b2, c.b2, d.b2);
    ChainIsX4(a.b3, b.b3, c.b3, d.b3);
  }

  /** The encryption tables do SubBytes, ShiftRows and MixColumns at once. */
  lemma EncWordIs(a: Word32, b: Word32, c: Word32, d: Word32, k: Word32)
    ensures ColOf(EncWord(a, b, c, d, k)) == XorCol(Mix(SubCol(ColOf(a), ColOf(b), ColOf(c), ColOf(d))), ColOf(k))
  {
    hide B0, B1, B2, B3, Word, Xor8, X4, S, Dbl, Mul3, XorAll, E0, E1, E2, E3;
    var p, q, r, s := S(B0(a)), S(B1(b)), S(B2(c)), S(B3(d));
    ColOfAll(Col(Dbl(p), p, p, Mul3(p)), Col(Mul3(q), Dbl(q), q, q), Col(r, Mul3(r), Dbl(r), r),
        Col(s, s, Mul3(s), Dbl(s)), k);
    Rotate(Dbl(q), Mul3(r), s, p);
    Rotate(Dbl(r), Mul3(s), p, q);
    Rotate(q, Dbl(r), Mul3(s), p);
    Rotate(Mul3(p), q, r, Dbl(s));
  }

  lemma DecWordIs(a: Word32, b: Word32, c: Word32, d: Word32, k: Word32)
    ensures ColOf(DecWord(a, b, c, d, k)) == XorCol(InvMix(InvSubCol(ColOf(a), ColOf(b), ColOf(c), ColOf(d))), ColOf(k))
  {
    hide B0, B1, B2, B3, Word, Xor8, X4, Si, Mul9, Mul11, Mul13, Mul14, XorAll, D0, D1, D2, D3;
    var p, q, r, s := Si(B0(a)), Si(B1(b)), Si(B2(c)), Si(B3(d));
    ColOfAll(Col(Mul14(p), Mul9(p), Mul13(p), Mul11(p)), Col(Mul11(q), Mul14(q), Mul9(q), Mul13(q)),
             Col(Mul13(r), Mul11(r), Mul14(r), Mul9(r)), Col(Mul9(s), Mul13(s), Mul11(s), Mul14(s)), k);
    Rotate(Mul14(q), Mul11(r), Mul13(s), Mul9(p));
    Rotate(Mul14(r), Mul11(s), Mul13(p), Mul9(q));
    Rotate(Mul9(q), Mul14(r), Mul11(s), Mul13(p));
    Rotate(Mul11(p), Mul13(q), Mul9(r), Mul14(s));
  }

  lemma Masks(x: Byte)
    ensures var w := Word(Col(x, x, x, x));
      && MaskTop(w) == Word(Col(x, 0, 0, 0)) && MaskHigh(w) == Word(Col(0, x, 0, 0))
      && MaskLow(w) == Word(Col(0, 0, x, 0)) && MaskBottom(w) == Word(Col(0, 0, 0, x))
  {
  }

  lemma OneByte(a: Byte, b: Byte, c: Byte, d: Byte)
    ensures X4(a, 0, 0, 0) == a && X4(0, b, 0, 0) == b && X4(0, 0, c, 0) == c && X4(0, 0, 0, d) == d
  {
  }

  lemma MaskedAll(p: Byte, q: Byte, r: Byte, s: Byte, k: Word32)
    ensures ColOf(XorAll(MaskTop(Word(Col(p, p, p, p))), MaskHigh(Word(Col(q, q, q, q))),
                         MaskLow(Word(Col(r, r, r, r))), MaskBottom(Word(Col(s, s, s, s))), k)) ==
            XorCol(Col(p, q, r, s), ColOf(k))
  {
    hide ColOf, Word, X4, XorAll, MaskTop, MaskHigh, MaskLow, MaskBottom, Xor8;
    Masks(p);
    Masks(q);
    Masks(r);
    Masks(s);
    ColOfAll(Col(p, 0, 0, 0), Col(0, q, 0, 0), Col(0, 0, r, 0), Col(0, 0, 0, s), k);
    OneByte(p, q, r, s);
  }

  lemma EncLastIs(a: Word32, b: Word32, c: Word32, d: Word32, k: Word32)
    ensures ColOf(EncLast(a, b, c, d, k)) == XorCol(SubCol(ColOf(a), ColOf(b), ColOf(c), ColOf(d)), ColOf(k))
  {
    hide B0, B1, B2, B3, Word, XorAll, S, MaskTop, MaskHigh, MaskLow, MaskBottom, Xor8, E4;
    MaskedAll(S(B0(a)), S(B1(b)), S(B2(c)), S(B3(d)), k);
  }

  lemma DecLastIs(a: Word32, b: Word32, c: Word32, d: Word32, k: Word32)
    ensures ColOf(DecLast(a, b, c, d, k)) == XorCol(InvSubCol(ColOf(a), ColOf(b), ColOf(c), ColOf(d)), ColOf(k))
  {
    hide B0, B1, B2, B3, Word, XorAll, Si, MaskTop, MaskHigh, MaskLow, MaskBottom, Xor8, D4;
    MaskedAll(Si(B0(a)), Si(B1(b)), Si(B2(c)), Si(B3(d)), k);
  }
}
