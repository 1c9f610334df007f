// AES on columns of bytes, as sections 5.1 to 5.3 of FIPS 197 define it: the cipher, the
// equivalent inverse cipher, and why the second undoes the first.

module AesSpec {
  import opened Bytes
  import opened AesBox

  // ---------------------------------------------------------------- one byte

  /** Multiplication by x modulo x^8 + x^4 + x^3 + x + 1. */
  function Dbl(a: Byte): Byte {
    (a << 1) ^ (a >> 7) ^ ((a >> 7) << 1) ^ ((a >> 7) << 3) ^ ((a >> 7) << 4)
  }

  lemma DblReduces(a: Byte)
    ensures Dbl(a) == (a << 1) ^ (if a & 0x80 != 0 then 0x1b else 0)
  {
  }

  /** x to the i-th in the field. */
  function XPower(i: nat): Byte {
    if i == 0 then 1 else Dbl(XPower(i - 1))
  }

  function X4(a: Byte, b: Byte, c: Byte, d: Byte): Byte {
    Xor8(Xor8(a, b), Xor8(c, d))
  }

  function Four(a: Byte): Byte {
    Dbl(Dbl(a))
  }

  function Mul3(a: Byte): Byte {
    Xor8(Dbl(a), a)
  }

  function Mul9(a: Byte): Byte {
    Xor8(Four(Dbl(a)), a)
  }

  function Mul11(a: Byte): Byte {
    Xor8(Xor8(Four(Dbl(a)), Dbl(a)), a)
  }

  function Mul13(a: Byte): Byte {
    Xor8(Xor8(Four(Dbl(a)), Four(a)), a)
  }

  function Mul14(a: Byte): Byte {
    Xor8(Xor8(Four(Dbl(a)), Four(a)), Dbl(a))
  }

  lemma DblXor(a: Byte, b: Byte)
    ensures Dbl(Xor8(a, b)) == Xor8(Dbl(a), Dbl(b))
  {
  }

  // ---------------------------------------------------------------- sums of bytes

  lemma XorAssociates(a: Byte, b: Byte, c: Byte)
    ensures Xor8(Xor8(a, b), c) == Xor8(a, Xor8(b, c))
  {
  }

  lemma Swap(a: Byte, b: Byte, c: Byte, d: Byte)
    ensures Xor8(Xor8(a, b), Xor8(c, d)) == Xor8(Xor8(a, c), Xor8(b, d))
  {
    hide Xor8;
    XorAssociates(a, b, Xor8(c, d));
    XorAssociates(b, c, d);
    Xor8Laws(b, c);
    XorAssociates(c, b, d);
    XorAssociates(a, c, Xor8(b, d));
  }

  lemma Rotate(a: Byte, b: Byte, c: Byte, d: Byte)
    ensures X4(a, b, c, d) == X4(d, a, b, c)
  {
    hide Xor8;
    Xor8Laws(c, d);
    Swap(a, b, d, c);
    Xor8Laws(a, d);
  }

  lemma SumOfFour(a: Byte, b: Byte, c: Byte, d: Byte, p: Byte, q: Byte, r: Byte, s: Byte)
    ensures X4(Xor8(a, p), Xor8(b, q), Xor8(c, r), Xor8(d, s)) == Xor8(X4(a, b, c, d), X4(p, q, r, s))
  {
    hide Xor8;
    Swap(a, p, b, q);
    Swap(c, r, d, s);
    Swap(Xor8(a, b), Xor8(p, q), Xor8(c, d), Xor8(r, s));
  }

  /** Four sums of four can be added up the other way. */
  lemma Transpose(a0: Byte, a1: Byte, a2: Byte, a3: Byte, b0: Byte, b1: Byte, b2: Byte, b3: Byte,
                  c0: Byte, c1: Byte, c2: Byte, c3: Byte, d0: Byte, d1: Byte, d2: Byte, d3: Byte)
    ensures X4(X4(a0, a1, a2, a3), X4(b0, b1, b2, b3), X4(c0, c1, c2, c3), X4(d0, d1, d2, d3)) ==
            X4(X4(a0, b0, c0, d0), X4(a1, b1, c1, d1), X4(a2, b2, c2, d2), X4(a3, b3, c3, d3))
  {
    hide Xor8;
    SumOfFour(a0, a1, a2, a3, b0, b1, b2, b3);
    SumOfFour(c0, c1, c2, c3, d0, d1, d2, d3);
    SumOfFour(Xor8(a0, b0), Xor8(a1, b1), Xor8(a2, b2), Xor8(a3, b3),
              Xor8(c0, d0), Xor8(c1, d1), Xor8(c2, d2), Xor8(c3, d3));
  }

  lemma OnlyFirst(a: Byte)
    ensures X4(a, 0, 0, 0) == a
  {
  }

  // ---------------------------------------------------------------- multiplication is linear

  lemma FourXor(a: Byte, b: Byte)
    ensures Four(Xor8(a, b)) == Xor8(Four(a), Four(b))
    ensures Four(Dbl(Xor8(a, b))) == Xor8(Four(Dbl(a)), Four(Dbl(b)))
  {
    hide Dbl, Xor8;
    DblXor(a, b);
    DblXor(Dbl(a), Dbl(b));
    DblXor(Four(a), Four(b));
  }

  lemma MulXor(a: Byte, b: Byte)
    ensures Mul3(Xor8(a, b)) == Xor8(Mul3(a), Mul3(b))
    ensures Mul9(Xor8(a, b)) == Xor8(Mul9(a), Mul9(b))
    ensures Mul11(Xor8(a, b)) == Xor8(Mul11(a), Mul11(b))
    ensures Mul13(Xor8(a, b)) == Xor8(Mul13(a), Mul13(b))
    ensures Mul14(Xor8(a, b)) == Xor8(Mul14(a), Mul14(b))
  {
    hide Dbl, Xor8, Four;
    DblXor(a, b);
    FourXor(a, b);
    var a2, b2, a4, b4, a8, b8 := Dbl(a), Dbl(b), Four(a), Four(b), Four(Dbl(a)), Four(Dbl(b));
    Swap(a2, b2, a, b);
    Swap(a8, b8, a, b);
    Swap(a8, b8, a2, b2);
    Swap(Xor8(a8, a2), Xor8(b8, b2), a, b);
    Swap(a8, b8, a4, b4);
    Swap(Xor8(a8, a4), Xor8(b8, b4), a, b);
    Swap(Xor8(a8, a4), Xor8(b8, b4), a2, b2);
  }

  lemma MulX4(a: Byte, b: Byte, c: Byte, d: Byte)
    ensures Mul9(X4(a, b, c, d)) == X4(Mul9(a), Mul9(b), Mul9(c), Mul9(d))
    ensures Mul11(X4(a, b, c, d)) == X4(Mul11(a), Mul11(b), Mul11(c), Mul11(d))
    ensures Mul13(X4(a, b, c, d)) == X4(Mul13(a), Mul13(b), Mul13(c), Mul13(d))
    ensures Mul14(X4(a, b, c, d)) == X4(Mul14(a), Mul14(b), Mul14(c), Mul14(d))
  {
    hide Xor8, Mul9, Mul11, Mul13, Mul14;
    MulXor(a, b);
    MulXor(c, d);
    MulXor(Xor8(a, b), Xor8(c, d));
  }

  // ---------------------------------------------------------------- the products

  lemma XorLaws(a: Byte, b: Byte)
    ensures Xor8(a, b) == Xor8(b, a) && Xor8(a, a) == 0 && Xor8(0, a) == a
  {
  }

  /** What is added twice goes away. */
  lemma XorTwice(a: Byte, b: Byte)
    ensures Xor8(a, Xor8(a, b)) == b && Xor8(Xor8(a, b), a) == b && Xor8(Xor8(a, b), b) == a
  {
    hide Xor8;
    XorLaws(a, b);
    XorLaws(b, b);
    XorLaws(a, Xor8(a, b));
    XorLaws(b, a);
    XorLaws(a, 0);
    XorAssociates(a, a, b);
    XorAssociates(a, b, b);
  }

  lemma XorMeet(a: Byte, b: Byte, c: Byte)
    ensures Xor8(Xor8(a, b), Xor8(a, c)) == Xor8(Xor8(b, a), Xor8(c, a)) == Xor8(b, c)
  {
    hide Xor8;
    XorLaws(a, b);
    XorLaws(a, c);
    XorLaws(Xor8(b, c), a);
    Swap(a, b, a, c);
  }

  lemma XorFlip(a: Byte, b: Byte, c: Byte)
    ensures Xor8(Xor8(a, b), c) == Xor8(Xor8(a, c), b)
  {
    hide Xor8;
    XorAssociates(a, b, c);
    XorAssociates(a, c, b);
    XorLaws(b, c);
  }

  lemma CancelOne(x0: Byte, x1: Byte, x2: Byte, x3: Byte, x4: Byte)
    ensures X4(Xor8(Xor8(x4, x3), x2), Xor8(Xor8(x3, x1), x0),
               Xor8(Xor8(x3, x2), x0), Xor8(Xor8(x4, x1), Xor8(x3, x0))) == x0
  {
    hide Xor8;
    var p, q, r, s := Xor8(Xor8(x4, x3), x2), Xor8(Xor8(x3, x1), x0), Xor8(Xor8(x3, x2), x0),
                      Xor8(Xor8(x4, x1), Xor8(x3, x0));
    Swap(x4, x1, x3, x0);
    XorMeet(Xor8(x4, x3), x2, Xor8(x1, x0));
    XorMeet(x0, Xor8(x3, x1), Xor8(x3, x2));
    XorMeet(x3, x1, x2);
    XorLaws(r, s);
    Swap(p, q, s, r);
    XorAssociates(x2, x1, x0);
    XorLaws(x1, x2);
    XorTwice(Xor8(x2, x1), x0);
  }

  lemma CancelTwo(x0: Byte, x1: Byte, x2: Byte, x3: Byte, x4: Byte)
    ensures X4(Xor8(Xor8(Xor8(x4, x3), x2), Xor8(Xor8(x3, x2), x1)), Xor8(Xor8(x4, x2), x1),
               Xor8(Xor8(x3, x2), x0), Xor8(x3, x0)) == 0
  {
    hide Xor8;
    XorAssociates(x4, x3, x2);
    Swap(x4, Xor8(x3, x2), x1, Xor8(x3, x2));
    XorLaws(Xor8(x3, x2), x1);
    XorMeet(Xor8(x3, x2), x4, x1);
    XorMeet(x1, x4, Xor8(x4, x2));
    XorTwice(x4, x2);
    XorMeet(x0, Xor8(x3, x2), x3);
    XorTwice(x3, x2);
    XorLaws(x2, x2);
  }

  lemma CancelThree(x0: Byte, x1: Byte, x2: Byte, x3: Byte, x4: Byte)
    ensures X4(Xor8(Xor8(x3, x2), x1), Xor8(Xor8(Xor8(x4, x2), x1), Xor8(Xor8(x3, x1), x0)),
               Xor8(Xor8(x4, x3), x1), Xor8(x3, x0)) == 0
  {
    hide Xor8;
    var b, c, d := Xor8(x2, x1), Xor8(x4, x3), Xor8(x1, x0);
    Swap(Xor8(x4, x2), x1, Xor8(x3, x1), x0);
    Swap(x4, x2, x3, x1);
    XorAssociates(x3, x2, x1);
    XorAssociates(Xor8(x3, b), Xor8(c, b), d);
    XorMeet(b, x3, c);
    XorLaws(x4, x3);
    XorTwice(x3, x4);
    Swap(c, x1, x3, x0);
    XorTwice(x4, x3);
    XorLaws(Xor8(x4, d), 0);
  }

  lemma CancelFour(x0: Byte, x1: Byte, x2: Byte, x3: Byte, x4: Byte)
    ensures X4(Xor8(Xor8(x3, x2), x1), Xor8(Xor8(x3, x1), x0),
               Xor8(Xor8(Xor8(x4, x3), x1), Xor8(Xor8(x3, x2), x0)), Xor8(x4, x1)) == 0
  {
    hide Xor8;
    var k := Xor8(Xor8(x3, x2), x0);
    XorFlip(x3, x2, x1);
    XorMeet(Xor8(x3, x1), x2, x0);
    XorFlip(x4, x3, x1);
    XorAssociates(Xor8(x4, x1), x3, k);
    XorTwice(Xor8(x4, x1), Xor8(x3, k));
    XorAssociates(x3, Xor8(x3, x2), x0);
    XorTwice(x3, x2);
    XorLaws(Xor8(x2, x0), 0);
  }

  lemma ProductsOne(a: Byte)
    ensures X4(Mul14(Dbl(a)), Mul11(a), Mul13(a), Mul9(Mul3(a))) == a
  {
    hide Dbl, Xor8, X4;
    MulXor(Dbl(a), a);
    CancelOne(a, Dbl(a), Four(a), Four(Dbl(a)), Four(Four(a)));
  }

  lemma ProductsTwo(a: Byte)
    ensures X4(Mul14(Mul3(a)), Mul11(Dbl(a)), Mul13(a), Mul9(a)) == 0
  {
    hide Dbl, Xor8, X4;
    MulXor(Dbl(a), a);
    CancelTwo(a, Dbl(a), Four(a), Four(Dbl(a)), Four(Four(a)));
  }

  lemma ProductsThree(a: Byte)
    ensures X4(Mul14(a), Mul11(Mul3(a)), Mul13(Dbl(a)), Mul9(a)) == 0
  {
    hide Dbl, Xor8, X4;
    MulXor(Dbl(a), a);
    CancelThree(a, Dbl(a), Four(a), Four(Dbl(a)), Four(Four(a)));
  }

  lemma ProductsFour(a: Byte)
    ensures X4(Mul14(a), Mul11(a), Mul13(Mul3(a)), Mul9(Dbl(a))) == 0
  {
    hide Dbl, Xor8, X4;
    MulXor(Dbl(a), a);
    CancelFour(a, Dbl(a), Four(a), Four(Dbl(a)), Four(Four(a)));
  }

  // ---------------------------------------------------------------- one column

  datatype Col = Col(b0: Byte, b1: Byte, b2: Byte, b3: Byte)

  function XorCol(a: Col, b: Col): Col {
    Col(Xor8(a.b0, b.b0), Xor8(a.b1, b.b1), Xor8(a.b2, b.b2), Xor8(a.b3, b.b3))
  }

  function MixByte(a: Byte, b: Byte, c: Byte, d: Byte): Byte {
    X4(Dbl(a), Mul3(b), c, d)
  }

  /** MixColumns on one column. */
  function Mix(a: Col): Col {
    Col(MixByte(a.b0, a.b1, a.b2, a.b3), MixByte(a.b1, a.b2, a.b3, a.b0),
        MixByte(a.b2, a.b3, a.b0, a.b1), MixByte(a.b3, a.b0, a.b1, a.b2))
  }

  function InvMixByte(a: Byte, b: Byte, c: Byte, d: Byte): Byte {
    X4(Mul14(a), Mul11(b), Mul13(c), Mul9(d))
  }

  /** InvMixColumns on one column. */
  function InvMix(a: Col): Col {
    Col(InvMixByte(a.b0, a.b1, a.b2, a.b3), InvMixByte(a.b1, a.b2, a.b3, a.b0),
        InvMixByte(a.b2, a.b3, a.b0, a.b1), InvMixByte(a.b3, a.b0, a.b1, a.b2))
  }

  lemma InvMixMixByte(a: Byte, b: Byte, c: Byte, d: Byte)
    ensures InvMixByte(MixByte(a, b, c, d), MixByte(b, c, d, a), MixByte(c, d, a, b), MixByte(d, a, b, c)) == a
  {
    hide Dbl, Mul3, Mul9, Mul11, Mul13, Mul14, X4;
    MulX4(Dbl(a), Mul3(b), c, d);
    MulX4(Dbl(b), Mul3(c), d, a);
    MulX4(Dbl(c), Mul3(d), a, b);
    MulX4(Dbl(d), Mul3(a), b, c);
    RotateRows(a, b, c, d);
    Transpose(Mul14(Dbl(a)), Mul14(Mul3(b)), Mul14(c), Mul14(d), Mul11(a), Mul11(Dbl(b)), Mul11(Mul3(c)), Mul11(d),
              Mul13(a), Mul13(b), Mul13(Dbl(c)), Mul13(Mul3(d)), Mul9(Mul3(a)), Mul9(b), Mul9(c), Mul9(Dbl(d)));
    ProductsOne(a);
    ProductsTwo(b);
    ProductsThree(c);
    ProductsFour(d);
    OnlyFirst(a);
  }

  lemma RotateRows(a: Byte, b: Byte, c: Byte, d: Byte)
    ensures X4(Mul11(Dbl(b)), Mul11(Mul3(c)), Mul11(d), Mul11(a)) ==
      X4(Mul11(a), Mul11(Dbl(b)), Mul11(Mul3(c)), Mul11(d))
    ensures X4(Mul13(Dbl(c)), Mul13(Mul3(d)), Mul13(a), Mul13(b)) ==
      X4(Mul13(a), Mul13(b), Mul13(Dbl(c)), Mul13(Mul3(d)))
    ensures X4(Mul9(Dbl(d)), Mul9(Mul3(a)), Mul9(b), Mul9(c)) == X4(Mul9(Mul3(a)), Mul9(b), Mul9(c), Mul9(Dbl(d)))
  {
    hide Dbl, Mul3, Mul9, Mul11, Mul13, X4;
    Rotate(Mul11(Dbl(b)), Mul11(Mul3(c)), Mul11(d), Mul11(a));
    Rotate(Mul13(Dbl(c)), Mul13(Mul3(d)), Mul13(a), Mul13(b));
    Rotate(Mul13(b), Mul13(Dbl(c)), Mul13(Mul3(d)), Mul13(a));
    Rotate(Mul9(Mul3(a)), Mul9(b), Mul9(c), Mul9(Dbl(d)));
  }

  /** InvMixColumns undoes MixColumns. */
  lemma InvMixOfMix(a: Col)
    ensures InvMix(Mix(a)) == a
  {
    hide MixByte, InvMixByte;
    InvMixMixByte(a.b0, a.b1, a.b2, a.b3);
    InvMixMixByte(a.b1, a.b2, a.b3, a.b0);
    InvMixMixByte(a.b2, a.b3, a.b0, a.b1);
    InvMixMixByte(a.b3, a.b0, a.b1, a.b2);
  }

  lemma InvMixByteXor(a: Byte, b: Byte, c: Byte, d: Byte, p: Byte, q: Byte, r: Byte, s: Byte)
    ensures InvMixByte(Xor8(a, p), Xor8(b, q), Xor8(c, r), Xor8(d, s)) ==
      Xor8(InvMixByte(a, b, c, d), InvMixByte(p, q, r, s))
  {
    hide Xor8, Mul9, Mul11, Mul13, Mul14, X4;
    MulXor(a, p);
    MulXor(b, q);
    MulXor(c, r);
    MulXor(d, s);
    SumOfFour(Mul14(a), Mul11(b), Mul13(c), Mul9(d), Mul14(p), Mul11(q), Mul13(r), Mul9(s));
  }

  /** InvMixColumns is linear: it can be applied to round keys instead of states. */
  lemma InvMixXor(a: Col, p: Col)
    ensures InvMix(XorCol(a, p)) == XorCol(InvMix(a), InvMix(p))
  {
    hide InvMixByte, Xor8;
    InvMixByteXor(a.b0, a.b1, a.b2, a.b3, p.b0, p.b1, p.b2, p.b3);
    InvMixByteXor(a.b1, a.b2, a.b3, a.b0, p.b1, p.b2, p.b3, p.b0);
    InvMixByteXor(a.b2, a.b3, a.b0, a.b1, p.b2, p.b3, p.b0, p.b1);
    InvMixByteXor(a.b3, a.b0, a.b1, a.b2, p.b3, p.b0, p.b1, p.b2);
  }

  lemma XorColCancels(a: Col, b: Col)
    ensures XorCol(XorCol(a, b), b) == a
  {
    hide Xor8;
    Xor8Laws(a.b0, b.b0);
    Xor8Laws(a.b1, b.b1);
    Xor8Laws(a.b2, b.b2);
    Xor8Laws(a.b3, b.b3);
  }

  // ---------------------------------------------------------------- the state

  datatype State = State(c0: Col, c1: Col, c2: Col, c3: Col)

  function AddKey(s: State, k: State): State {
    State(XorCol(s.c0, k.c0), XorCol(s.c1, k.c1), XorCol(s.c2, k.c2), XorCol(s.c3, k.c3))
  }

  function MixAll(s: State): State {
    State(Mix(s.c0), Mix(s.c1), Mix(s.c2), Mix(s.c3))
  }

  function InvMixAll(s: State): State {
    State(InvMix(s.c0), InvMix(s.c1), InvMix(s.c2), InvMix(s.c3))
  }

  function SubCol(a: Col, b: Col, c: Col, d: Col): Col {
    Col(S(a.b0), S(b.b1), S(c.b2), S(d.b3))
  }

  /** SubBytes and ShiftRows. */
  function SubShift(s: State): State {
    State(SubCol(s.c0, s.c1, s.c2, s.c3), SubCol(s.c1, s.c2, s.c3, s.c0),
          SubCol(s.c2, s.c3, s.c0, s.c1), SubCol(s.c3, s.c0, s.c1, s.c2))
  }

  function InvSubCol(a: Col, b: Col, c: Col, d: Col): Col {
    Col(Si(a.b0), Si(b.b1), Si(c.b2), Si(d.b3))
  }

  /** InvSubBytes and InvShiftRows. */
  function InvSubShift(s: State): State {
    State(InvSubCol(s.c0, s.c3, s.c2, s.c1), InvSubCol(s.c1, s.c0, s.c3, s.c2),
          InvSubCol(s.c2, s.c1, s.c0, s.c3), InvSubCol(s.c3, s.c2, s.c1, s.c0))
  }

  lemma InvSubColOf(a: Col)
    ensures Col(Si(S(a.b0)), Si(S(a.b1)), Si(S(a.b2)), Si(S(a.b3))) == a
  {
    hide S, Si;
    SiOfS(a.b0);
    SiOfS(a.b1);
    SiOfS(a.b2);
    SiOfS(a.b3);
  }

  lemma InvSubShiftOf(s: State)
    ensures InvSubShift(SubShift(s)) == s
  {
    hide S, Si;
    InvSubColOf(s.c0);
    InvSubColOf(s.c1);
    InvSubColOf(s.c2);
    InvSubColOf(s.c3);
  }

  // ---------------------------------------------------------------- cipher and inverse

  /** The state after the first r full rounds (section 5.1). */
  function Encrypting(keys: seq<State>, s: State, r: nat): State
    requires r < |keys|
  {
    if r == 0 then AddKey(s, keys[0]) else AddKey(MixAll(SubShift(Encrypting(keys, s, r - 1))), keys[r])
  }

  /** The cipher: the last round has no MixColumns. */
  function Cipher(keys: seq<State>, s: State): State
    requires |keys| >= 2
  {
    AddKey(SubShift(Encrypting(keys, s, |keys| - 2)), keys[|keys| - 1])
  }

  /** The state after the first r full rounds of the equivalent inverse cipher (section 5.3.5). */
  function Decrypting(keys: seq<State>, s: State, r: nat): State
    requires r < |keys|
  {
    if r == 0 then AddKey(s, keys[0]) else AddKey(InvMixAll(InvSubShift(Decrypting(keys, s, r - 1))), keys[r])
  }

  function InvCipher(keys: seq<State>, s: State): State
    requires |keys| >= 2
  {
    AddKey(InvSubShift(Decrypting(keys, s, |keys| - 2)), keys[|keys| - 1])
  }

  /** The round keys of the equivalent inverse cipher: reversed, the inner ones through
      InvMixColumns. */
  function InvKeys(keys: seq<State>): (d: seq<State>)
    ensures |d| == |keys|
  {
    seq(|keys|, r requires 0 <= r < |keys| =>
      if r == 0 || r == |keys| - 1 then keys[|keys| - 1 - r] else InvMixAll(keys[|keys| - 1 - r]))
  }

  lemma AddKeyCancels(s: State, k: State)
    ensures AddKey(AddKey(s, k), k) == s
  {
    hide XorCol;
    XorColCancels(s.c0, k.c0);
    XorColCancels(s.c1, k.c1);
    XorColCancels(s.c2, k.c2);
    XorColCancels(s.c3, k.c3);
  }

  lemma InvMixRound(s: State, k: State)
    ensures AddKey(InvMixAll(AddKey(MixAll(s), k)), InvMixAll(k)) == s
  {
    hide XorCol, Mix, InvMix, AddKey;
    InvMixKeys(MixAll(s), k);
    InvMixOfMix(s.c0);
    InvMixOfMix(s.c1);
    InvMixOfMix(s.c2);
    InvMixOfMix(s.c3);
    AddKeyCancels(s, InvMixAll(k));
  }

  lemma InvMixKeys(s: State, k: State)
    ensures InvMixAll(AddKey(s, k)) == AddKey(InvMixAll(s), InvMixAll(k))
  {
    hide XorCol, InvMix;
    InvMixXor(s.c0, k.c0);
    InvMixXor(s.c1, k.c1);
    InvMixXor(s.c2, k.c2);
    InvMixXor(s.c3, k.c3);
  }

  /** Inside the inverse cipher the states of the cipher reappear, last first. */
  lemma {:induction false} DecryptingBack(keys: seq<State>, s: State, r: nat)
    requires |keys| >= 2 && r < |keys| - 1
    ensures Decrypting(InvKeys(keys), Cipher(keys, s), r) == SubShift(Encrypting(keys, s, |keys| - 2 - r))
  {
    hide AddKey, MixAll, InvMixAll, SubShift, InvSubShift;
    var n := |keys| - 1;
    if r == 0 {
      AddKeyCancels(SubShift(Encrypting(keys, s, n - 1)), keys[n]);
    } else {
      DecryptingBack(keys, s, r - 1);
      var inner := Encrypting(keys, s, n - 1 - r);
      InvSubShiftOf(AddKey(MixAll(SubShift(inner)), keys[n - r]));
      InvMixRound(SubShift(inner), keys[n - r]);
    }
  }

  /** The inverse cipher undoes the cipher. */
  lemma InvCipherOfCipher(keys: seq<State>, s: State)
    requires |keys| >= 2
    ensures InvCipher(InvKeys(keys), Cipher(keys, s)) == s
  {
    hide AddKey, MixAll, InvMixAll, SubShift, InvSubShift, Decrypting;
    DecryptingBack(keys, s, |keys| - 2);
    InvSubShiftOf(AddKey(s, keys[0]));
    AddKeyCancels(s, keys[0]);
  }
}
