// The interfaces of AES byte by byte, as sections 3.4 and 5.2 of FIPS 197 give them: which byte of
// a block is where in the state, and every byte of the expanded key.

module AesBytes {
  import opened Bytes
  import opened Words32
  import opened AesBox
  import opened AesSpec
  import opened AesTables
  import opened AesWords
  import opened Aes

  lemma ColumnLoaded(s: Bytes)
    requires |s| == 4
    ensures ColOf(Get32b(s)) == Col(s[0], s[1], s[2], s[3])
  {
  }

  lemma ColumnStored(c: Col)
    ensures Put32b(Word(c)) == [c.b0, c.b1, c.b2, c.b3]
  {
  }

  /** The bytes of a block fill the state column by column. */
  lemma LoadedIs(s: Bytes)
    requires |s| == 16
    ensures Loaded(s) == State(Col(s[0], s[1], s[2], s[3]), Col(s[4], s[5], s[6], s[7]),
                               Col(s[8], s[9], s[10], s[11]), Col(s[12], s[13], s[14], s[15]))
  {
    hide ColOf, Get32b;
    ColumnLoaded(s[..4]);
    ColumnLoaded(s[4..8]);
    ColumnLoaded(s[8..12]);
    ColumnLoaded(s[12..]);
  }

  /** They leave it in the same order. */
  lemma StoredIs(c0: Col, c1: Col, c2: Col, c3: Col)
    ensures Stored(State(c0, c1, c2, c3)) ==
      [c0.b0, c0.b1, c0.b2, c0.b3] + [c1.b0, c1.b1, c1.b2, c1.b3] + [c2.b0, c2.b1, c2.b2, c2.b3] +
      [c3.b0, c3.b1, c3.b2, c3.b3]
  {
    hide Word, Put32b;
    ColumnStored(c0);
    ColumnStored(c1);
    ColumnStored(c2);
    ColumnStored(c3);
  }

  /** What is added to the word nk places back: after a whole key length the word before, turned by
      a byte, substituted and with a power of x added; for the longest key it is also substituted
      half way. */
  function Added(nk: nat, i: nat, t: Col): Col
    requires nk > 0 && i >= nk
  {
    if i % nk == 0 then Col(Xor8(S(t.b1), XPower(i / nk - 1)), S(t.b2), S(t.b3), S(t.b0))
    else if nk == 8 && i % 8 == 4 then Col(S(t.b0), S(t.b1), S(t.b2), S(t.b3))
    else t
  }

  /** Word i of the expanded key in bytes: the key itself, then each word from two earlier ones. */
  lemma ExpandedIs(key: Bytes, i: nat)
    requires |key| == 16 || |key| == 24 || |key| == 32
    requires i < 4 * (Rounds(|key| / 4) + 1)
    ensures var nk, k := |key| / 4, KeyWords(key);
      ColOf(Expanded(k, i)) ==
      if i < nk then Col(key[4 * i], key[4 * i + 1], key[4 * i + 2], key[4 * i + 3])
      else XorCol(ColOf(Expanded(k, i - nk)), Added(nk, i, ColOf(Expanded(k, i - 1))))
  {
    hide ColOf, Get32b, Xor32, SubRot, Sub, RoundConstant, XorCol, Xor8, S, XPower, Expanded;
    var nk, k := |key| / 4, KeyWords(key);
    if i < nk {
      ColumnLoaded(key[4 * i..4 * i + 4]);
      ExpandedFirst(k, i);
    } else {
      var temp := Expanded(k, i - 1);
      ExpandedNext(k, i);
      ColOfXor(Expanded(k, i - nk), WordAdded(nk, i, temp));
      AddedIs(nk, i, temp);
    }
  }

  function WordAdded(nk: nat, i: nat, temp: Word32): Word32
    requires KeyLength(nk) && i >= nk
  {
    if i % nk == 0 then Xor32(SubRot(temp), RoundConstant(i / nk - 1))
    else if nk == 8 && i % 8 == 4 then Sub(temp)
    else temp
  }

  lemma ExpandedFirst(k: seq<Word32>, i: nat)
    requires KeyLength(|k|) && i < |k|
    ensures Expanded(k, i) == k[i]
  {
  }

  lemma ExpandedNext(k: seq<Word32>, i: nat)
    requires KeyLength(|k|) && |k| <= i < 4 * (Rounds(|k|) + 1)
    ensures Expanded(k, i) == Xor32(Expanded(k, i - |k|), WordAdded(|k|, i, Expanded(k, i - 1)))
  {
    hide Xor32, SubRot, Sub, RoundConstant;
    TurnBound(|k|, i);
  }

  lemma AddedIs(nk: nat, i: nat, temp: Word32)
    requires KeyLength(nk) && i >= nk
    ensures ColOf(WordAdded(nk, i, temp)) == Added(nk, i, ColOf(temp))
  {
    hide ColOf, Xor32, SubRot, Sub, RoundConstant, Xor8, S, XPower;
    if i % nk == 0 {
      TurnBytes(temp, i / nk - 1);
    } else {
      SubBytes(temp);
    }
  }

  lemma TurnBound(nk: nat, i: nat)
    requires KeyLength(nk) && nk <= i < 4 * (Rounds(nk) + 1)
    ensures Place(nk, i) == i % nk && Turn(nk, i) == i / nk && 1 <= i / nk <= 10
  {
  }

  lemma TurnBytes(w: Word32, i: nat)
    ensures var t := ColOf(w);
      ColOf(Xor32(SubRot(w), RoundConstant(i))) == Col(Xor8(S(t.b1), XPower(i)), S(t.b2), S(t.b3), S(t.b0))
  {
    hide Word, Xor32, Xor8, S, XPower, B0, B1, B2, B3;
    ColOfXor(SubRot(w), RoundConstant(i));
    ColOfWord(Col(S(B1(w)), S(B2(w)), S(B3(w)), S(B0(w))));
    ColOfWord(Col(XPower(i), 0, 0, 0));
    XorZero(S(B2(w)));
    XorZero(S(B3(w)));
    XorZero(S(B0(w)));
  }

  lemma XorZero(b: Byte)
    ensures Xor8(b, 0) == b
  {
  }

  lemma SubBytes(w: Word32)
    ensures var t := ColOf(w); ColOf(Sub(w)) == Col(S(t.b0), S(t.b1), S(t.b2), S(t.b3))
  {
    hide Word, S, B0, B1, B2, B3;
    ColOfWord(Col(S(B0(w)), S(B1(w)), S(B2(w)), S(B3(w))));
  }
}
