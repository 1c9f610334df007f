// The two linear maps of the Mersenne Twister (src/prng/mt19937.c) as matrices over GF(2), and the
// inverse of the tempering.

module TwisterMatrix {
  type Word = bv32

  /** The tempering matrix times a word: for each bit of the word that is set, one column. */
  function Tempered(w: Word): Word {
    ((0 - (w & 1)) & 0x00400091) ^ ((0 - ((w >> 1) & 1)) & 0x00000002) ^ ((0 - ((w >> 2) & 1)) & 0x01020244) ^
    ((0 - ((w >> 3) & 1)) & 0x02040489) ^ ((0 - ((w >> 4) & 1)) & 0x00000010) ^ ((0 - ((w >> 5) & 1)) & 0x08001220) ^
    ((0 - ((w >> 6) & 1)) & 0x00000040) ^ ((0 - ((w >> 7) & 1)) & 0x20404890) ^ ((0 - ((w >> 8) & 1)) & 0x00800120) ^
    ((0 - ((w >> 9) & 1)) & 0x01000240) ^ ((0 - ((w >> 10) & 1)) & 0x02000480) ^ ((0 - ((w >> 11) & 1)) & 0x04440990) ^
    ((0 - ((w >> 12) & 1)) & 0x08081200) ^ ((0 - ((w >> 13) & 1)) & 0x01022244) ^ ((0 - ((w >> 14) & 1)) & 0x22244c81) ^
    ((0 - ((w >> 15) & 1)) & 0x40009010) ^ ((0 - ((w >> 16) & 1)) & 0x88013220) ^ ((0 - ((w >> 17) & 1)) & 0x01020000) ^
    ((0 - ((w >> 18) & 1)) & 0x20444891) ^ ((0 - ((w >> 19) & 1)) & 0x04880022) ^ ((0 - ((w >> 20) & 1)) & 0x09100044) ^
    ((0 - ((w >> 21) & 1)) & 0x12200088) ^ ((0 - ((w >> 22) & 1)) & 0x04440911) ^ ((0 - ((w >> 23) & 1)) & 0x08881222) ^
    ((0 - ((w >> 24) & 1)) & 0x81000040) ^ ((0 - ((w >> 25) & 1)) & 0x22204888) ^ ((0 - ((w >> 26) & 1)) & 0x44009100) ^
    ((0 - ((w >> 27) & 1)) & 0x88012200) ^ ((0 - ((w >> 28) & 1)) & 0x11020440) ^ ((0 - ((w >> 29) & 1)) & 0x20040801) ^
    ((0 - ((w >> 30) & 1)) & 0x44081102) ^ ((0 - ((w >> 31) & 1)) & 0x88102204)
  }

  /** The twist: the top bit of u moves to bit 30, the low 31 bits of v move down by one, and the
      lowest of them brings in the last row of the companion matrix. */
  function Twist(u: Word, v: Word): Word {
    ((u & 0x80000000) >> 1) ^ ((v & 0x7ffffffe) >> 1) ^ (if v & 1 == 1 then 0x9908b0df else 0)
  }

  // ---------------------------------------------------------------- the steps of the code

  /** The four shifts at the end of mt19937_update. */
  function Temper(y: Word): Word {
    var a := y ^ (y >> 11);
    var b := a ^ ((a << 7) & 0x9d2c5680);
    var c := b ^ ((b << 15) & 0xefc60000);
    c ^ (c >> 18)
  }

  /** They multiply by the tempering matrix. */
  lemma TemperIsMatrix(w: Word)
    ensures Temper(w) == Tempered(w)
  {
    Columns(w);
  }

  lemma Columns(w: Word)
    ensures var a := w ^ (w >> 11);
      var b := a ^ ((a << 7) & 0x9d2c5680);
      var c := b ^ ((b << 15) & 0xefc60000);
      c ^ (c >> 18) ==
      ((0 - (w & 1)) & 0x00400091) ^ ((0 - ((w >> 1) & 1)) & 0x00000002) ^
      ((0 - ((w >> 2) & 1)) & 0x01020244) ^ ((0 - ((w >> 3) & 1)) & 0x02040489) ^
      ((0 - ((w >> 4) & 1)) & 0x00000010) ^ ((0 - ((w >> 5) & 1)) & 0x08001220) ^
      ((0 - ((w >> 6) & 1)) & 0x00000040) ^ ((0 - ((w >> 7) & 1)) & 0x20404890) ^
      ((0 - ((w >> 8) & 1)) & 0x00800120) ^ ((0 - ((w >> 9) & 1)) & 0x01000240) ^
      ((0 - ((w >> 10) & 1)) & 0x02000480) ^ ((0 - ((w >> 11) & 1)) & 0x04440990) ^
      ((0 - ((w >> 12) & 1)) & 0x08081200) ^ ((0 - ((w >> 13) & 1)) & 0x01022244) ^
      ((0 - ((w >> 14) & 1)) & 0x22244c81) ^ ((0 - ((w >> 15) & 1)) & 0x40009010) ^
      ((0 - ((w >> 16) & 1)) & 0x88013220) ^ ((0 - ((w >> 17) & 1)) & 0x01020000) ^
      ((0 - ((w >> 18) & 1)) & 0x20444891) ^ ((0 - ((w >> 19) & 1)) & 0x04880022) ^
      ((0 - ((w >> 20) & 1)) & 0x09100044) ^ ((0 - ((w >> 21) & 1)) & 0x12200088) ^
      ((0 - ((w >> 22) & 1)) & 0x04440911) ^ ((0 - ((w >> 23) & 1)) & 0x08881222) ^
      ((0 - ((w >> 24) & 1)) & 0x81000040) ^ ((0 - ((w >> 25) & 1)) & 0x22204888) ^
      ((0 - ((w >> 26) & 1)) & 0x44009100) ^ ((0 - ((w >> 27) & 1)) & 0x88012200) ^
      ((0 - ((w >> 28) & 1)) & 0x11020440) ^ ((0 - ((w >> 29) & 1)) & 0x20040801) ^
      ((0 - ((w >> 30) & 1)) & 0x44081102) ^ ((0 - ((w >> 31) & 1)) & 0x88102204)
  {
  }

  /** Masks, shift and table lookup of the regeneration loops. */
  function Regenerated(far: Word, u: Word, v: Word): Word {
    var y := (u & 0x80000000) | (v & 0x7fffffff);
    far ^ (y >> 1) ^ (if y & 0x01 == 1 then 0x9908b0df else 0x00000000)
  }

  lemma RegeneratedIsTwist(far: Word, u: Word, v: Word)
    ensures Regenerated(far, u, v) == far ^ Twist(u, v)
  {
  }

  // ---------------------------------------------------------------- the inverse

  function Step11(w: Word): Word {
    w ^ (w >> 11)
  }

  function Step7(a: Word): Word {
    a ^ ((a << 7) & 0x9d2c5680)
  }

  function Step15(b: Word): Word {
    b ^ ((b << 15) & 0xefc60000)
  }

  function Step18(c: Word): Word {
    c ^ (c >> 18)
  }

  function Undo7(b: Word): Word {
    var b1 := b ^ ((b << 7) & 0x9d2c5680);
    var b2 := b ^ ((b1 << 7) & 0x9d2c5680);
    var b3 := b ^ ((b2 << 7) & 0x9d2c5680);
    b ^ ((b3 << 7) & 0x9d2c5680)
  }

  function Undo11(a: Word): Word {
    a ^ (a >> 11) ^ (a >> 22)
  }

  /** The four steps undone from the last to the first; two of them undo themselves. */
  function Untempered(t: Word): Word {
    Undo11(Undo7(Step15(Step18(t))))
  }

  /** Tempering loses nothing: it is a bijection on the words. */
  lemma TemperedInverse(w: Word)
    ensures Untempered(Tempered(w)) == w && Tempered(Untempered(w)) == w
  {
    hide Temper, Tempered, Step11, Step7, Step15, Step18, Undo7, Undo11;
    TemperIsMatrix(w);
    Steps(w);
    Twice18(Step15(Step7(Step11(w))));
    Twice15(Step7(Step11(w)));
    Undone7(Step11(w));
    Undone11(w);
    var u := Untempered(w);
    TemperIsMatrix(u);
    Steps(u);
    Redone11(Undo7(Step15(Step18(w))));
    Redone7(Step15(Step18(w)));
    Twice15(Step18(w));
    Twice18(w);
  }

  function Low15(b: Word): Word {
    (b << 15) & 0xefc60000
  }

  lemma XorTwice(w: Word, x: Word)
    ensures (w ^ x) ^ x == w
  {
  }

  lemma Step15Is(w: Word)
    ensures Step15(w) == w ^ Low15(w)
  {
  }

  lemma Low15Same(w: Word)
    ensures Low15(Step15(w)) == Low15(w)
  {
  }

  lemma Twice15(w: Word)
    ensures Step15(Step15(w)) == w
  {
    hide Step15, Low15;
    Step15Is(w);
    Step15Is(Step15(w));
    Low15Same(w);
    XorTwice(w, Low15(w));
  }

  lemma ByteByByte(x: Word, y: Word)
    requires x & 0x000000ff == y & 0x000000ff && x & 0x0000ff00 == y & 0x0000ff00
    requires x & 0x00ff0000 == y & 0x00ff0000 && x & 0xff000000 == y & 0xff000000
    ensures x == y
  {
  }

  lemma Twice18(w: Word)
    ensures Step18(Step18(w)) == w
  {
    hide Step18;
    Twice180(w);
    Twice181(w);
    Twice182(w);
    Twice183(w);
    ByteByByte(Step18(Step18(w)), w);
  }

  lemma Twice180(w: Word)
    ensures Step18(Step18(w)) & 0x000000ff == w & 0x000000ff
  {
  }

  lemma Twice181(w: Word)
    ensures Step18(Step18(w)) & 0x0000ff00 == w & 0x0000ff00
  {
  }

  lemma Twice182(w: Word)
    ensures Step18(Step18(w)) & 0x00ff0000 == w & 0x00ff0000
  {
  }

  lemma Twice183(w: Word)
    ensures Step18(Step18(w)) & 0xff000000 == w & 0xff000000
  {
  }

  lemma Undone7(w: Word)
    ensures Undo7(Step7(w)) == w
  {
    hide Step7, Undo7;
    Undone70(w);
    Undone71(w);
    Undone72(w);
    Undone73(w);
    ByteByByte(Undo7(Step7(w)), w);
  }

  lemma Undone70(w: Word)
    ensures Undo7(Step7(w)) & 0x000000ff == w & 0x000000ff
  {
  }

  lemma Undone71(w: Word)
    ensures Undo7(Step7(w)) & 0x0000ff00 == w & 0x0000ff00
  {
  }

  lemma Undone72(w: Word)
    ensures Undo7(Step7(w)) & 0x00ff0000 == w & 0x00ff0000
  {
  }

  lemma Undone73(w: Word)
    ensures Undo7(Step7(w)) & 0xff000000 == w & 0xff000000
  {
  }

  lemma Redone7(w: Word)
    ensures Step7(Undo7(w)) == w
  {
    hide Step7, Undo7;
    Redone70(w);
    Redone71(w);
    Redone72(w);
    Redone73(w);
    ByteByByte(Step7(Undo7(w)), w);
  }

  lemma Redone70(w: Word)
    ensures Step7(Undo7(w)) & 0x000000ff == w & 0x000000ff
  {
  }

  lemma Redone71(w: Word)
    ensures Step7(Undo7(w)) & 0x0000ff00 == w & 0x0000ff00
  {
  }

  lemma Redone72(w: Word)
    ensures Step7(Undo7(w)) & 0x00ff0000 == w & 0x00ff0000
  {
  }

  lemma Redone73(w: Word)
    ensures Step7(Undo7(w)) & 0xff000000 == w & 0xff000000
  {
  }

  lemma Undone11(w: Word)
    ensures Undo11(Step11(w)) == w
  {
    hide Step11, Undo11;
    Undone110(w);
    Undone111(w);
    Undone112(w);
    Undone113(w);
    ByteByByte(Undo11(Step11(w)), w);
  }

  lemma Undone110(w: Word)
    ensures Undo11(Step11(w)) & 0x000000ff == w & 0x000000ff
  {
  }

  lemma Undone111(w: Word)
    ensures Undo11(Step11(w)) & 0x0000ff00 == w & 0x0000ff00
  {
  }

  lemma Undone112(w: Word)
    ensures Undo11(Step11(w)) & 0x00ff0000 == w & 0x00ff0000
  {
  }

  lemma Undone113(w: Word)
    ensures Undo11(Step11(w)) & 0xff000000 == w & 0xff000000
  {
  }

  lemma Redone11(w: Word)
    ensures Step11(Undo11(w)) == w
  {
    hide Step11, Undo11;
    Redone110(w);
    Redone111(w);
    Redone112(w);
    Redone113(w);
    ByteByByte(Step11(Undo11(w)), w);
  }

  lemma Redone110(w: Word)
    ensures Step11(Undo11(w)) & 0x000000ff == w & 0x000000ff
  {
  }

  lemma Redone111(w: Word)
    ensures Step11(Undo11(w)) & 0x0000ff00 == w & 0x0000ff00
  {
  }

  lemma Redone112(w: Word)
    ensures Step11(Undo11(w)) & 0x00ff0000 == w & 0x00ff0000
  {
  }

  lemma Redone113(w: Word)
    ensures Step11(Undo11(w)) & 0xff000000 == w & 0xff000000
  {
  }

  lemma PieceByPiece(x: Word, y: Word)
    requires x & 0x0000000f == y & 0x0000000f
    requires x & 0x00000030 == y & 0x00000030
    requires x & 0x000000c0 == y & 0x000000c0
    requires x & 0x00000300 == y & 0x00000300
    requires x & 0x00000c00 == y & 0x00000c00
    requires x & 0x00003000 == y & 0x00003000
    requires x & 0x0000c000 == y & 0x0000c000
    requires x & 0x000f0000 == y & 0x000f0000
    requires x & 0x00f00000 == y & 0x00f00000
    requires x & 0x0f000000 == y & 0x0f000000
    requires x & 0xf0000000 == y & 0xf0000000
    ensures x == y
  {
  }

  lemma Steps(w: Word)
    ensures Temper(w) == Step18(Step15(Step7(Step11(w))))
  {
    hide Temper, Step11, Step7, Step15, Step18;
    Steps0(w);
    Steps1(w);
    Steps2(w);
    Steps3(w);
    Steps4(w);
    Steps5(w);
    Steps6(w);
    Steps7(w);
    Steps8(w);
    Steps9(w);
    Steps10(w);
    PieceByPiece(Temper(w), Step18(Step15(Step7(Step11(w)))));
  }

  lemma Steps0(w: Word)
    ensures Temper(w) & 0x0000000f == Step18(Step15(Step7(Step11(w)))) & 0x0000000f
  {
  }

  lemma Steps1(w: Word)
    ensures Temper(w) & 0x00000030 == Step18(Step15(Step7(Step11(w)))) & 0x00000030
  {
  }

  lemma Steps2(w: Word)
    ensures Temper(w) & 0x000000c0 == Step18(Step15(Step7(Step11(w)))) & 0x000000c0
  {
  }

  lemma Steps3(w: Word)
    ensures Temper(w) & 0x00000300 == Step18(Step15(Step7(Step11(w)))) & 0x00000300
  {
  }

  lemma Steps4(w: Word)
    ensures Temper(w) & 0x00000c00 == Step18(Step15(Step7(Step11(w)))) & 0x00000c00
  {
  }

  lemma Steps5(w: Word)
    ensures Temper(w) & 0x00003000 == Step18(Step15(Step7(Step11(w)))) & 0x00003000
  {
  }

  lemma Steps6(w: Word)
    ensures Temper(w) & 0x0000c000 == Step18(Step15(Step7(Step11(w)))) & 0x0000c000
  {
  }

  lemma Steps7(w: Word)
    ensures Temper(w) & 0x000f0000 == Step18(Step15(Step7(Step11(w)))) & 0x000f0000
  {
  }

  lemma Steps8(w: Word)
    ensures Temper(w) & 0x00f00000 == Step18(Step15(Step7(Step11(w)))) & 0x00f00000
  {
  }

  lemma Steps9(w: Word)
    ensures Temper(w) & 0x0f000000 == Step18(Step15(Step7(Step11(w)))) & 0x0f000000
  {
  }

  lemma Steps10(w: Word)
    ensures Temper(w) & 0xf0000000 == Step18(Step15(Step7(Step11(w)))) & 0xf0000000
  {
  }
}
