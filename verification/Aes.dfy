// The functions of src/blockcipher/ciphers/aes/aes.c: key expansion, the decryption key
// schedule, and table-driven encryption and decryption.

module Aes {
  import opened Bytes
  import opened Words32
  import opened AesBox
  import opened AesSpec
  import opened AesTables
  import opened AesWords
  import Modes = BlockModes

  // ---------------------------------------------------------------- the key schedule

  /** SubWord, looked up in e4 under masks. */
  function SubWord(a: Byte, b: Byte, c: Byte, d: Byte): Word32 {
    Xor32(Xor32(Xor32(MaskTop(E4(a)), MaskHigh(E4(b))), MaskLow(E4(c))), MaskBottom(E4(d)))
  }

  const RCON: seq<Word32> := [0x01000000, 0x02000000, 0x04000000, 0x08000000, 0x10000000, 0x20000000, 0x40000000,
                              0x80000000, 0x1b000000, 0x36000000]

  /** Rcon[i + 1] of section 5.2 of FIPS 197: x to the i-th and three zero bytes. */
  function RoundConstant(i: nat): Word32 {
    Word(Col(XPower(i), 0, 0, 0))
  }

  lemma RconIs(i: nat)
    requires i < 10
    ensures RCON[i] == RoundConstant(i)
  {
    hide Word, Dbl;
    RconWords();
    Powers();
  }

  lemma Powers()
    ensures XPower(0) == 1 && XPower(1) == 2 && XPower(2) == 4 && XPower(3) == 8 && XPower(4) == 16
    ensures XPower(5) == 32 && XPower(6) == 64 && XPower(7) == 128 && XPower(8) == 0x1b && XPower(9) == 0x36
  {
    hide Dbl;
    assert Dbl(1) == 2 && Dbl(2) == 4 && Dbl(4) == 8 && Dbl(8) == 16 && Dbl(16) == 32 by {
      DoubledLow();
    }
    assert Dbl(32) == 64 && Dbl(64) == 128 && Dbl(128) == 0x1b && Dbl(0x1b) == 0x36 by {
      DoubledHigh();
    }
    assert XPower(2) == 4;
    assert XPower(4) == 16;
    assert XPower(6) == 64;
    assert XPower(8) == 0x1b;
  }

  lemma DoubledLow()
    ensures Dbl(1) == 2 && Dbl(2) == 4 && Dbl(4) == 8 && Dbl(8) == 16 && Dbl(16) == 32
  {
  }

  lemma DoubledHigh()
    ensures Dbl(32) == 64 && Dbl(64) == 128 && Dbl(128) == 0x1b && Dbl(0x1b) == 0x36
  {
  }

  lemma RconWords()
    ensures RCON == [Word(Col(1, 0, 0, 0)), Word(Col(2, 0, 0, 0)), Word(Col(4, 0, 0, 0)), Word(Col(8, 0, 0, 0)),
                     Word(Col(16, 0, 0, 0)), Word(Col(32, 0, 0, 0)), Word(Col(64, 0, 0, 0)), Word(Col(128, 0, 0, 0)),
                     Word(Col(0x1b, 0, 0, 0)), Word(Col(0x36, 0, 0, 0))]
  {
  }

  function Place(nk: nat, i: nat): nat {
    if nk == 4 then i % 4 else if nk == 6 then i % 6 else i % 8
  }

  function Turn(nk: nat, i: nat): nat {
    if nk == 4 then i / 4 else if nk == 6 then i / 6 else i / 8
  }

  predicate KeyLength(nk: nat) {
    nk == 4 || nk == 6 || nk == 8
  }

  function Rounds(nk: nat): nat {
    nk + 6
  }

  function Sub(w: Word32): Word32 {
    Word(Col(S(B0(w)), S(B1(w)), S(B2(w)), S(B3(w))))
  }

  function SubRot(w: Word32): Word32 {
    Word(Col(S(B1(w)), S(B2(w)), S(B3(w)), S(B0(w))))
  }

  /** Word i of the expanded key (section 5.2 of FIPS 197). */
  function Expanded(key: seq<Word32>, i: nat): Word32
    requires KeyLength(|key|) && i < 60
    decreases i
  {
    var nk := |key|;
    if i < nk then key[i]
    else
      var temp := Expanded(key, i - 1);
      Xor32(Expanded(key, i - nk),
        if Place(nk, i) == 0 && Turn(nk, i) <= 10 then Xor32(SubRot(temp), RoundConstant(Turn(nk, i) - 1))
        else if nk == 8 && Place(nk, i) == 4 then Sub(temp)
        else temp)
  }

  lemma SubWordIs(a: Byte, b: Byte, c: Byte, d: Byte)
    ensures SubWord(a, b, c, d) == Word(Col(S(a), S(b), S(c), S(d)))
  {
    hide Word, ColOf, S, MaskTop, MaskHigh, MaskLow, MaskBottom, Xor32, Xor8;
    Masks(S(a));
    Masks(S(b));
    Masks(S(c));
    Masks(S(d));
    FourParts(S(a), S(b), S(c), S(d));
  }

  lemma FourParts(p: Byte, q: Byte, r: Byte, s: Byte)
    ensures Xor32(Xor32(Xor32(Word(Col(p, 0, 0, 0)), Word(Col(0, q, 0, 0))),
                        Word(Col(0, 0, r, 0))), Word(Col(0, 0, 0, s))) ==
            Word(Col(p, q, r, s))
  {
  }

  class Schedule {
    var rounds: nat
    var rk: array<Word32>

    ghost predicate Valid()
      reads this
    {
      rk.Length == 60 && (rounds == 10 || rounds == 12 || rounds == 14)
    }

    constructor ()
      ensures Valid() && fresh(rk)
    {
      rounds := 10;
      rk := new Word32[60];
    }

    ghost predicate Filled(key: seq<Word32>, n: nat)
      reads this, rk
    {
      rk.Length == 60 && KeyLength(|key|) && n <= 60 && forall j :: 0 <= j < n ==> rk[j] == Expanded(key, j)
    }

    method Put(ghost key: seq<Word32>, n: nat, w: Word32)
      requires Filled(key, n) && n < 60 && w == Expanded(key, n)
      modifies rk
      ensures Filled(key, n + 1)
    {
      hide Expanded;
      rk[n] := w;
    }

    /** rk[n] = rk[n - nk] ^ rk[n - 1] */
    method PutPlain(ghost key: seq<Word32>, nk: nat, n: nat)
      requires Filled(key, n) && nk == |key| <= n < 60 && Place(nk, n) != 0 && !(nk == 8 && Place(nk, n) == 4)
      modifies rk
      ensures Filled(key, n + 1)
    {
      hide Xor32, SubRot, Sub;
      Put(key, n, Xor32(rk[n - nk], rk[n - 1]));
    }

    /** The word with the rotated and substituted predecessor and a round constant. */
    method PutTurn(ghost key: seq<Word32>, nk: nat, n: nat, i: nat)
      requires Filled(key, n) && nk == |key| <= n < 60 && Place(nk, n) == 0 && Turn(nk, n) == i + 1 && i < 10
      modifies rk
      ensures Filled(key, n + 1)
    {
      hide Xor32, SubRot, SubWord, Word, MaskTop, MaskHigh, MaskLow, MaskBottom, E4, B0, B1, B2, B3, RoundConstant;
      RconIs(i);
      var temp := rk[n - 1];
      var parts := XorTurn(rk[n - nk], temp, RCON[i]);
      TurnIs(rk[n - nk], temp, RCON[i]);
      Put(key, n, parts);
    }

    /** The word in the middle of a 256-bit turn. */
    method PutSub(ghost key: seq<Word32>, n: nat)
      requires Filled(key, n) && |key| == 8 <= n < 60 && Place(8, n) == 4
      modifies rk
      ensures Filled(key, n + 1)
    {
      hide Xor32, SubRot, Sub, XorSub, RCON;
      var temp := rk[n - 1];
      SubIs(rk[n - 8], temp);
      Put(key, n, XorSub(rk[n - 8], temp));
    }

    method LoadWord(k: Bytes, i: nat)
      requires |k| == 16 || |k| == 24 || |k| == 32
      requires 4 * i < |k| && Filled(KeyWords(k), i)
      modifies rk
      ensures Filled(KeyWords(k), i + 1)
    {
      hide Get32b;
      Put(KeyWords(k), i, Get32b(k[4 * i..4 * i + 4]));
    }

    method Expand128(ghost key: seq<Word32>)
      requires Filled(key, 4) && |key| == 4
      modifies rk
      ensures Filled(key, 44)
    {
      hide Filled;
      var i := 0;
      while i < 10
        invariant i <= 10 && Filled(key, 4 * i + 4)
      {
        PutTurn(key, 4, 4 * i + 4, i);
        PutPlain(key, 4, 4 * i + 5);
        PutPlain(key, 4, 4 * i + 6);
        PutPlain(key, 4, 4 * i + 7);
        i := i + 1;
      }
    }

    method Expand192(ghost key: seq<Word32>)
      requires Filled(key, 6) && |key| == 6
      modifies rk
      ensures Filled(key, 52)
    {
      hide Filled;
      var i := 0;
      while true
        invariant i < 8 && Filled(key, 6 * i + 6)
        decreases 8 - i
      {
        var n := 6 * i;
        PutTurn(key, 6, n + 6, i);
        PutPlain(key, 6, n + 7);
        PutPlain(key, 6, n + 8);
        PutPlain(key, 6, n + 9);
        i := i + 1;
        if i == 8 {
          return;
        }
        PutPlain(key, 6, n + 10);
        PutPlain(key, 6, n + 11);
      }
    }

    method Expand256(ghost key: seq<Word32>)
      requires Filled(key, 8) && |key| == 8
      modifies rk
      ensures Filled(key, 60)
    {
      hide Filled;
      var i := 0;
      while true
        invariant i < 7 && Filled(key, 8 * i + 8)
        decreases 7 - i
      {
        var n := 8 * i;
        PutTurn(key, 8, n + 8, i);
        PutPlain(key, 8, n + 9);
        PutPlain(key, 8, n + 10);
        PutPlain(key, 8, n + 11);
        i := i + 1;
        if i == 7 {
          return;
        }
        PutSub(key, n + 12);
        PutPlain(key, 8, n + 13);
        PutPlain(key, 8, n + 14);
        PutPlain(key, 8, n + 15);
      }
    }

    /** aes_set_encrypt_key: the expanded key of FIPS 197 in rd_key. */
    method SetEncryptKey(k: Bytes)
      requires Valid() && (|k| == 16 || |k| == 24 || |k| == 32)
      modifies this`rounds, rk
      ensures Valid() && rounds == Rounds(|k| / 4) && Filled(KeyWords(k), 4 * (rounds + 1))
    {
      hide Expanded, KeyWords;
      rounds := if |k| == 16 then 10 else if |k| == 24 then 12 else 14;
      LoadWord(k, 0);
      LoadWord(k, 1);
      LoadWord(k, 2);
      LoadWord(k, 3);
      if |k| == 16 {
        Expand128(KeyWords(k));
        return;
      }
      LoadWord(k, 4);
      LoadWord(k, 5);
      if |k| == 24 {
        Expand192(KeyWords(k));
        return;
      }
      LoadWord(k, 6);
      LoadWord(k, 7);
      Expand256(KeyWords(k));
    }

    /** The loop of aes_set_decrypt_key that turns the round keys around, four words at a time. */
    method Reverse()
      requires Valid()
      modifies rk
      ensures forall p: nat :: p < 4 * rounds + 4 ==> rk[p] == old(rk[..])[Flip(p, rounds)]
    {
      hide Turned, Exchanged;
      ghost var start := rk[..];
      var k, j := 0, 4 * rounds;
      TurnedStart(start, rounds);
      while k < j
        invariant k + j == 4 * rounds && k % 4 == 0 && k <= j + 4
        invariant Turned(rk[..], start, k, j, rounds)
      {
        TurnedNext(rk[..], start, k, j, rounds);
        SwapWords(k, j);
        SwapWords(k + 1, j + 1);
        SwapWords(k + 2, j + 2);
        SwapWords(k + 3, j + 3);
        k := k + 4;
        j := j - 4;
      }
      TurnedEnd(rk[..], start, k, j, rounds);
    }

    method SwapWords(a: nat, b: nat)
      requires a < rk.Length && b < rk.Length && a != b
      modifies rk
      ensures rk[..] == Exchanged(old(rk[..]), a, b)
    {
      var temp := rk[a];
      rk[a] := rk[b];
      rk[b] := temp;
    }

    /** The four words of one round key. */
    method InvMixGroup(k: nat)
      requires Valid() && 4 * k + 3 < 60
      modifies rk
      ensures forall i :: 0 <= i < 60 ==>
        rk[i] == if 4 * k <= i < 4 * k + 4 then DecKeyWord(old(rk[i])) else old(rk[i])
    {
      hide DecKeyWord;
      rk[4 * k] := DecKeyWord(rk[4 * k]);
      rk[4 * k + 1] := DecKeyWord(rk[4 * k + 1]);
      rk[4 * k + 2] := DecKeyWord(rk[4 * k + 2]);
      rk[4 * k + 3] := DecKeyWord(rk[4 * k + 3]);
    }

    /** InvMixColumns on the inner round keys, by table lookups. */
    method InvMixInner()
      requires Valid()
      modifies rk
      ensures forall i :: 0 <= i < 60 ==>
        rk[i] == if 4 <= i < 4 * rounds then DecKeyWord(old(rk[i])) else old(rk[i])
    {
      hide DecKeyWord;
      var k := 1;
      while k < rounds
        invariant 1 <= k <= rounds
        invariant forall i :: 0 <= i < 60 ==>
          rk[i] == if 4 <= i < 4 * k then DecKeyWord(old(rk[i])) else old(rk[i])
      {
        InvMixGroup(k);
        k := k + 1;
      }
    }

    ghost function Keys(): seq<State>
      requires Valid()
      reads this, rk
    {
      StateKeys(rk[..], rounds)
    }

    /** aes_set_decrypt_key: the round keys of the equivalent inverse cipher. */
    method SetDecryptKey(k: Bytes)
      requires Valid() && (|k| == 16 || |k| == 24 || |k| == 32)
      modifies this`rounds, rk
      ensures Valid() && rounds == Rounds(|k| / 4) && Keys() == InvKeys(KeyStates(KeyWords(k)))
    {
      hide Expanded, KeyWords, DecKeyWord, Flip, Filled, StateKeys, InvKeys;
      SetEncryptKey(k);
      ghost var start := rk[..];
      FilledKeys(KeyWords(k));
      Reverse();
      ghost var turned := rk[..];
      InvMixInner();
      InvertedKeys(start, turned, rk[..], rounds);
    }

    lemma FilledKeys(key: seq<Word32>)
      requires Valid() && KeyLength(|key|) && rounds == Rounds(|key|) && Filled(key, 4 * (rounds + 1))
      ensures StateKeys(rk[..], rounds) == KeyStates(key)
    {
      hide Expanded, ColOf;
      forall r: nat | r <= rounds ensures StateKeys(rk[..], rounds)[r] == KeyStates(key)[r] {
        assert rk[4 * r] == Expanded(key, 4 * r) && rk[4 * r + 1] == Expanded(key, 4 * r + 1);
        assert rk[4 * r + 2] == Expanded(key, 4 * r + 2) && rk[4 * r + 3] == Expanded(key, 4 * r + 3);
      }
    }

    /** aes_encrypt */
    method Encrypt(input: Bytes) returns (output: Bytes)
      requires Valid() && |input| == 16
      ensures output == Stored(Cipher(Keys(), Loaded(input)))
    {
      hide EncWord, EncLast, Get32b, Put32b, Word, ColOf, Xor32, AddKey, MixAll, SubShift, StateKeys, Loaded, Stored;
      KeysLength();
      var s0, s1 := Xor32(Get32b(input[..4]), rk[0]), Xor32(Get32b(input[4..8]), rk[1]);
      var s2, s3 := Xor32(Get32b(input[8..12]), rk[2]), Xor32(Get32b(input[12..]), rk[3]);
      LoadStep(input, rk[0], rk[1], rk[2], rk[3]);
      KeyAt(0);
      var r := 1;
      while r < rounds
        invariant 1 <= r <= rounds && |Keys()| == rounds + 1
        invariant State(ColOf(s0), ColOf(s1), ColOf(s2), ColOf(s3)) == Encrypting(Keys(), Loaded(input), r - 1)
      {
        KeyAt(r);
        EncStep(s0, s1, s2, s3, rk[4 * r], rk[4 * r + 1], rk[4 * r + 2], rk[4 * r + 3]);
        var t0 := EncWord(s0, s1, s2, s3, rk[4 * r]);
        var t1 := EncWord(s1, s2, s3, s0, rk[4 * r + 1]);
        var t2 := EncWord(s2, s3, s0, s1, rk[4 * r + 2]);
        var t3 := EncWord(s3, s0, s1, s2, rk[4 * r + 3]);
        s0, s1, s2, s3 := t0, t1, t2, t3;
        r := r + 1;
      }
      KeyAt(rounds);
      EncEnd(s0, s1, s2, s3, rk[4 * r], rk[4 * r + 1], rk[4 * r + 2], rk[4 * r + 3]);
      var o0 := EncLast(s0, s1, s2, s3, rk[4 * r]);
      var o1 := EncLast(s1, s2, s3, s0, rk[4 * r + 1]);
      var o2 := EncLast(s2, s3, s0, s1, rk[4 * r + 2]);
      var o3 := EncLast(s3, s0, s1, s2, rk[4 * r + 3]);
      StoredWords(o0, o1, o2, o3);
      output := Put32b(o0) + Put32b(o1) + Put32b(o2) + Put32b(o3);
    }

    /** aes_decrypt */
    method Decrypt(input: Bytes) returns (output: Bytes)
      requires Valid() && |input| == 16
      ensures output == Stored(InvCipher(Keys(), Loaded(input)))
    {
      hide DecWord, DecLast, Get32b, Put32b, Word, ColOf, Xor32, AddKey, InvMixAll, InvSubShift, StateKeys, Loaded,
           Stored;
      KeysLength();
      var s0, s1 := Xor32(Get32b(input[..4]), rk[0]), Xor32(Get32b(input[4..8]), rk[1]);
      var s2, s3 := Xor32(Get32b(input[8..12]), rk[2]), Xor32(Get32b(input[12..]), rk[3]);
      LoadStep(input, rk[0], rk[1], rk[2], rk[3]);
      KeyAt(0);
      var r := 1;
      while r < rounds
        invariant 1 <= r <= rounds && |Keys()| == rounds + 1
        invariant State(ColOf(s0), ColOf(s1), ColOf(s2), ColOf(s3)) == Decrypting(Keys(), Loaded(input), r - 1)
      {
        KeyAt(r);
        DecStep(s0, s1, s2, s3, rk[4 * r], rk[4 * r + 1], rk[4 * r + 2], rk[4 * r + 3]);
        var t0 := DecWord(s0, s3, s2, s1, rk[4 * r]);
        var t1 := DecWord(s1, s0, s3, s2, rk[4 * r + 1]);
        var t2 := DecWord(s2, s1, s0, s3, rk[4 * r + 2]);
        var t3 := DecWord(s3, s2, s1, s0, rk[4 * r + 3]);
        s0, s1, s2, s3 := t0, t1, t2, t3;
        r := r + 1;
      }
      KeyAt(rounds);
      DecEnd(s0, s1, s2, s3, rk[4 * r], rk[4 * r + 1], rk[4 * r + 2], rk[4 * r + 3]);
      var o0 := DecLast(s0, s3, s2, s1, rk[4 * r]);
      var o1 := DecLast(s1, s0, s3, s2, rk[4 * r + 1]);
      var o2 := DecLast(s2, s1, s0, s3, rk[4 * r + 2]);
      var o3 := DecLast(s3, s2, s1, s0, rk[4 * r + 3]);
      StoredWords(o0, o1, o2, o3);
      output := Put32b(o0) + Put32b(o1) + Put32b(o2) + Put32b(o3);
    }

    lemma KeysLength()
      requires Valid()
      ensures |Keys()| == rounds + 1
    {
      hide ColOf;
    }

    lemma KeyAt(r: nat)
      requires Valid() && r <= rounds
      ensures |Keys()| == rounds + 1
      ensures Keys()[r] == State(ColOf(rk[4 * r]), ColOf(rk[4 * r + 1]), ColOf(rk[4 * r + 2]), ColOf(rk[4 * r + 3]))
    {
      hide ColOf;
    }
  }

  /** The place of word p when the order of the round keys is turned around. */
  function Flip(p: nat, rounds: nat): (q: nat)
    requires p < 4 * rounds + 4
    ensures q < 4 * rounds + 4
  {
    4 * (rounds - p / 4) + p % 4
  }

  lemma FlipInGroup(p: nat, k: nat, j: int, rounds: nat)
    requires k + j == 4 * rounds && k % 4 == 0 && p < 4 * rounds + 4
    ensures k <= p < k + 4 ==> Flip(p, rounds) == p - k + j
    ensures j <= p < j + 4 ==> Flip(p, rounds) == p - j + k
  {
    var m := k / 4;
    if k <= p < k + 4 {
      Quotient(p, m);
    } else if j <= p < j + 4 {
      Quotient(p, rounds - m);
    }
  }

  lemma Quotient(p: nat, m: nat)
    requires 4 * m <= p < 4 * m + 4
    ensures p / 4 == m && p % 4 == p - 4 * m
  {
  }

  ghost function Exchanged(s: seq<Word32>, a: nat, b: nat): (r: seq<Word32>)
    requires a < |s| && b < |s|
    ensures |r| == |s|
  {
    s[a := s[b]][b := s[a]]
  }

  /** Two groups of four words exchanged. */
  ghost function Swapped(s: seq<Word32>, a: nat, b: nat): (r: seq<Word32>)
    requires a + 4 <= b && b + 4 <= |s|
    ensures |r| == |s|
  {
    Exchanged(Exchanged(Exchanged(Exchanged(s, a, b), a + 1, b + 1), a + 2, b + 2), a + 3, b + 3)
  }

  lemma SwappedAt(s: seq<Word32>, a: nat, b: nat, p: nat)
    requires a + 4 <= b && b + 4 <= |s| && p < |s|
    ensures Swapped(s, a, b)[p] ==
      if a <= p < a + 4 then s[p - a + b] else if b <= p < b + 4 then s[p - b + a] else s[p]
  {
  }

  /** The groups before k and after j have changed places. */
  ghost predicate Turned(s: seq<Word32>, start: seq<Word32>, k: nat, j: int, rounds: nat) {
    && |s| == |start| == 60 && rounds <= 14
    && forall p: nat :: p < 4 * rounds + 4 ==> s[p] == if p < k || j + 4 <= p then start[Flip(p, rounds)] else start[p]
  }

  lemma TurnedStart(start: seq<Word32>, rounds: nat)
    requires |start| == 60 && rounds <= 14
    ensures Turned(start, start, 0, 4 * rounds, rounds)
  {
    hide Flip;
  }

  lemma TurnedNext(s: seq<Word32>, start: seq<Word32>, k: nat, j: nat, rounds: nat)
    requires Turned(s, start, k, j, rounds) && k + j == 4 * rounds && k % 4 == 0 && k < j
    ensures k + 4 <= j && Turned(Swapped(s, k, j), start, k + 4, j - 4, rounds)
  {
    hide Swapped, Flip;
    assert k == 4 * (k / 4) && j == 4 * (rounds - k / 4);
    forall p: nat | p < 4 * rounds + 4
      ensures Swapped(s, k, j)[p] == if p < k + 4 || j <= p then start[Flip(p, rounds)] else start[p]
    {
      SwappedAt(s, k, j, p);
      FlipInGroup(p, k, j, rounds);
    }
  }

  lemma TurnedEnd(s: seq<Word32>, start: seq<Word32>, k: nat, j: int, rounds: nat)
    requires Turned(s, start, k, j, rounds) && k + j == 4 * rounds && k % 4 == 0 && j <= k <= j + 4
    ensures forall p: nat :: p < 4 * rounds + 4 ==> s[p] == start[Flip(p, rounds)]
  {
    hide Flip;
    forall p: nat | p < 4 * rounds + 4 ensures s[p] == start[Flip(p, rounds)] {
      FlipInGroup(p, k, j, rounds);
    }
  }

  function KeyWords(k: Bytes): (w: seq<Word32>)
    requires |k| == 16 || |k| == 24 || |k| == 32
    ensures KeyLength(|w|) && |w| == |k| / 4
  {
    seq(|k| / 4, i requires 0 <= i < |k| / 4 => Get32b(k[4 * i..4 * i + 4]))
  }

  /** d0[e4[w >> 24] & 0xff] ^ d1[e4[(w >> 16) & 0xff] & 0xff] ^ ... */
  function DecKeyWord(w: Word32): Word32 {
    Xor32(Xor32(Xor32(D0(B3(E4(B0(w)))), D1(B3(E4(B1(w))))), D2(B3(E4(B2(w))))), D3(B3(E4(B3(w)))))
  }

  /** rk[0] ^ (four masked lookups) ^ rcon[i], from left to right. */
  function XorTurn(first: Word32, temp: Word32, rcon: Word32): Word32 {
    Xor32(Xor32(Xor32(Xor32(Xor32(first, MaskTop(E4(B1(temp)))), MaskHigh(E4(B2(temp)))), MaskLow(E4(B3(temp)))),
                MaskBottom(E4(B0(temp)))), rcon)
  }

  function XorSub(first: Word32, temp: Word32): Word32 {
    Xor32(Xor32(Xor32(Xor32(first, MaskTop(E4(B0(temp)))), MaskHigh(E4(B1(temp)))), MaskLow(E4(B2(temp)))),
          MaskBottom(E4(B3(temp))))
  }

  lemma FromLeft(f: Word32, a: Word32, b: Word32, c: Word32, d: Word32)
    ensures Xor32(Xor32(Xor32(Xor32(f, a), b), c), d) == Xor32(f, Xor32(Xor32(Xor32(a, b), c), d))
  {
    hide Xor32;
    Xor32Associates(f, a, b);
    Xor32Associates(f, Xor32(a, b), c);
    Xor32Associates(f, Xor32(Xor32(a, b), c), d);
  }

  lemma TurnIs(first: Word32, temp: Word32, rcon: Word32)
    ensures XorTurn(first, temp, rcon) == Xor32(first, Xor32(SubRot(temp), rcon))
  {
    hide Xor32, Word, S, B0, B1, B2, B3, E4, MaskTop, MaskHigh, MaskLow, MaskBottom;
    SubWordIs(B1(temp), B2(temp), B3(temp), B0(temp));
    FromLeft(first, MaskTop(E4(B1(temp))), MaskHigh(E4(B2(temp))), MaskLow(E4(B3(temp))), MaskBottom(E4(B0(temp))));
    Xor32Associates(first, SubRot(temp), rcon);
  }

  lemma SubIs(first: Word32, temp: Word32)
    ensures XorSub(first, temp) == Xor32(first, Sub(temp))
  {
    hide Xor32, Word, S, B0, B1, B2, B3, E4, MaskTop, MaskHigh, MaskLow, MaskBottom;
    SubWordIs(B0(temp), B1(temp), B2(temp), B3(temp));
    FromLeft(first, MaskTop(E4(B0(temp))), MaskHigh(E4(B1(temp))), MaskLow(E4(B2(temp))), MaskBottom(E4(B3(temp))));
  }

  // ---------------------------------------------------------------- words and states

  /** Round key r as a state. */
  function KeyState(rk: seq<Word32>, r: nat): State
    requires |rk| == 60 && r <= 14
  {
    State(ColOf(rk[4 * r]), ColOf(rk[4 * r + 1]), ColOf(rk[4 * r + 2]), ColOf(rk[4 * r + 3]))
  }

  /** Round keys as states. */
  function StateKeys(rk: seq<Word32>, rounds: nat): (keys: seq<State>)
    requires |rk| == 60 && rounds <= 14
    ensures |keys| == rounds + 1
  {
    seq(rounds + 1, r requires 0 <= r <= rounds => KeyState(rk, r))
  }

  /** The round keys of FIPS 197 for a key. */
  function KeyStates(key: seq<Word32>): (keys: seq<State>)
    requires KeyLength(|key|)
    ensures |keys| == Rounds(|key|) + 1
  {
    seq(Rounds(|key|) + 1, r requires 0 <= r <= Rounds(|key|) =>
      State(ColOf(Expanded(key, 4 * r)), ColOf(Expanded(key, 4 * r + 1)),
            ColOf(Expanded(key, 4 * r + 2)), ColOf(Expanded(key, 4 * r + 3))))
  }

  function Loaded(s: Bytes): State
    requires |s| == 16
  {
    State(ColOf(Get32b(s[..4])), ColOf(Get32b(s[4..8])), ColOf(Get32b(s[8..12])), ColOf(Get32b(s[12..])))
  }

  function Stored(s: State): (r: Bytes)
    ensures |r| == 16
  {
    Put32b(Word(s.c0)) + Put32b(Word(s.c1)) + Put32b(Word(s.c2)) + Put32b(Word(s.c3))
  }

  lemma StoredWords(o0: Word32, o1: Word32, o2: Word32, o3: Word32)
    ensures Stored(State(ColOf(o0), ColOf(o1), ColOf(o2), ColOf(o3))) ==
      Put32b(o0) + Put32b(o1) + Put32b(o2) + Put32b(o3)
  {
    hide Put32b, Word, ColOf;
    WordOfCol(o0);
    WordOfCol(o1);
    WordOfCol(o2);
    WordOfCol(o3);
  }

  lemma LoadedStored(s: State)
    ensures Loaded(Stored(s)) == s
  {
    hide Put32b, Get32b, Word, ColOf;
    var r := Stored(s);
    assert r[..4] == Put32b(Word(s.c0)) && r[4..8] == Put32b(Word(s.c1));
    assert r[8..12] == Put32b(Word(s.c2)) && r[12..] == Put32b(Word(s.c3));
    GetPut32b(Word(s.c0));
    GetPut32b(Word(s.c1));
    GetPut32b(Word(s.c2));
    GetPut32b(Word(s.c3));
    ColOfWord(s.c0);
    ColOfWord(s.c1);
    ColOfWord(s.c2);
    ColOfWord(s.c3);
  }

  lemma StoredLoaded(s: Bytes)
    requires |s| == 16
    ensures Stored(Loaded(s)) == s
  {
    hide Put32b, Get32b, Word, ColOf;
    WordOfCol(Get32b(s[..4]));
    WordOfCol(Get32b(s[4..8]));
    WordOfCol(Get32b(s[8..12]));
    WordOfCol(Get32b(s[12..]));
    PutGet32b(s[..4]);
    PutGet32b(s[4..8]);
    PutGet32b(s[8..12]);
    PutGet32b(s[12..]);
    assert s == s[..4] + s[4..8] + s[8..12] + s[12..];
  }

  lemma LoadStep(s: Bytes, k0: Word32, k1: Word32, k2: Word32, k3: Word32)
    requires |s| == 16
    ensures State(ColOf(Xor32(Get32b(s[..4]), k0)), ColOf(Xor32(Get32b(s[4..8]), k1)),
                  ColOf(Xor32(Get32b(s[8..12]), k2)), ColOf(Xor32(Get32b(s[12..]), k3))) ==
            AddKey(Loaded(s), State(ColOf(k0), ColOf(k1), ColOf(k2), ColOf(k3)))
  {
    hide Get32b, ColOf, Xor32, XorCol;
    ColOfXor(Get32b(s[..4]), k0);
    ColOfXor(Get32b(s[4..8]), k1);
    ColOfXor(Get32b(s[8..12]), k2);
    ColOfXor(Get32b(s[12..]), k3);
  }

  lemma EncStep(s0: Word32, s1: Word32, s2: Word32, s3: Word32, k0: Word32, k1: Word32, k2: Word32, k3: Word32)
    ensures State(ColOf(EncWord(s0, s1, s2, s3, k0)), ColOf(EncWord(s1, s2, s3, s0, k1)),
                  ColOf(EncWord(s2, s3, s0, s1, k2)), ColOf(EncWord(s3, s0, s1, s2, k3))) ==
            AddKey(MixAll(SubShift(State(ColOf(s0), ColOf(s1), ColOf(s2), ColOf(s3)))),
                State(ColOf(k0), ColOf(k1), ColOf(k2), ColOf(k3)))
  {
    hide ColOf, EncWord, XorCol, Mix, SubCol;
    EncWordIs(s0, s1, s2, s3, k0);
    EncWordIs(s1, s2, s3, s0, k1);
    EncWordIs(s2, s3, s0, s1, k2);
    EncWordIs(s3, s0, s1, s2, k3);
  }

  lemma EncEnd(s0: Word32, s1: Word32, s2: Word32, s3: Word32, k0: Word32, k1: Word32, k2: Word32, k3: Word32)
    ensures State(ColOf(EncLast(s0, s1, s2, s3, k0)), ColOf(EncLast(s1, s2, s3, s0, k1)),
                  ColOf(EncLast(s2, s3, s0, s1, k2)), ColOf(EncLast(s3, s0, s1, s2, k3))) ==
            AddKey(SubShift(State(ColOf(s0), ColOf(s1), ColOf(s2), ColOf(s3))),
                State(ColOf(k0), ColOf(k1), ColOf(k2), ColOf(k3)))
  {
    hide ColOf, EncLast, XorCol, SubCol;
    EncLastIs(s0, s1, s2, s3, k0);
    EncLastIs(s1, s2, s3, s0, k1);
    EncLastIs(s2, s3, s0, s1, k2);
    EncLastIs(s3, s0, s1, s2, k3);
  }

  lemma DecStep(s0: Word32, s1: Word32, s2: Word32, s3: Word32, k0: Word32, k1: Word32, k2: Word32, k3: Word32)
    ensures State(ColOf(DecWord(s0, s3, s2, s1, k0)), ColOf(DecWord(s1, s0, s3, s2, k1)),
                  ColOf(DecWord(s2, s1, s0, s3, k2)), ColOf(DecWord(s3, s2, s1, s0, k3))) ==
            AddKey(InvMixAll(InvSubShift(State(ColOf(s0), ColOf(s1), ColOf(s2), ColOf(s3)))),
                State(ColOf(k0), ColOf(k1), ColOf(k2), ColOf(k3)))
  {
    hide ColOf, DecWord, XorCol, InvMix, InvSubCol;
    DecWordIs(s0, s3, s2, s1, k0);
    DecWordIs(s1, s0, s3, s2, k1);
    DecWordIs(s2, s1, s0, s3, k2);
    DecWordIs(s3, s2, s1, s0, k3);
  }

  lemma DecEnd(s0: Word32, s1: Word32, s2: Word32, s3: Word32, k0: Word32, k1: Word32, k2: Word32, k3: Word32)
    ensures State(ColOf(DecLast(s0, s3, s2, s1, k0)), ColOf(DecLast(s1, s0, s3, s2, k1)),
                  ColOf(DecLast(s2, s1, s0, s3, k2)), ColOf(DecLast(s3, s2, s1, s0, k3))) ==
            AddKey(InvSubShift(State(ColOf(s0), ColOf(s1), ColOf(s2), ColOf(s3))),
                State(ColOf(k0), ColOf(k1), ColOf(k2), ColOf(k3)))
  {
    hide ColOf, DecLast, XorCol, InvSubCol;
    DecLastIs(s0, s3, s2, s1, k0);
    DecLastIs(s1, s0, s3, s2, k1);
    DecLastIs(s2, s1, s0, s3, k2);
    DecLastIs(s3, s2, s1, s0, k3);
  }

  // ---------------------------------------------------------------- the decryption keys

  lemma DecKeyWordIs(w: Word32)
    ensures ColOf(DecKeyWord(w)) == InvMix(ColOf(w))
  {
    hide ColOf, Word, S, Si, E4, Xor32, XorCol, InvMix, DecWord, B0, B1, B2, B3;
    var t := Word(Col(S(B0(w)), S(B1(w)), S(B2(w)), S(B3(w))));
    LowOfE4(B0(w));
    LowOfE4(B1(w));
    LowOfE4(B2(w));
    LowOfE4(B3(w));
    KeyLookup(w, t);
  }

  lemma LowOfE4(x: Byte)
    ensures B3(E4(x)) == S(x)
  {
    hide S;
  }

  lemma KeyLookup(w: Word32, t: Word32)
    requires t == Word(Col(S(B0(w)), S(B1(w)), S(B2(w)), S(B3(w))))
    ensures ColOf(Xor32(Xor32(Xor32(D0(S(B0(w))), D1(S(B1(w)))), D2(S(B2(w)))), D3(S(B3(w))))) == InvMix(ColOf(w))
  {
    hide S, Si, Word, Xor32, XorCol, InvMix, D0, D1, D2, D3, B0, B1, B2, B3;
    ColOfWord(Col(S(B0(w)), S(B1(w)), S(B2(w)), S(B3(w))));
    DecWordIs(t, t, t, t, 0);
    XorZero(Xor32(Xor32(Xor32(D0(B0(t)), D1(B1(t))), D2(B2(t))), D3(B3(t))));
    InvSubColOf(ColOf(w));
    NothingAdded(InvMix(ColOf(w)));
  }

  lemma XorZero(w: Word32)
    ensures Xor32(w, 0) == w
  {
  }

  lemma NothingAdded(c: Col)
    ensures XorCol(c, ColOf(0)) == c
  {
  }

  ghost predicate Inverted(start: seq<Word32>, turned: seq<Word32>, rk: seq<Word32>, rounds: nat) {
    && |start| == |turned| == |rk| == 60 && 1 <= rounds <= 14
    && (forall p: nat :: p < 4 * rounds + 4 ==> turned[p] == start[Flip(p, rounds)])
    && (forall i :: 0 <= i < 60 ==> rk[i] == if 4 <= i < 4 * rounds then DecKeyWord(turned[i]) else turned[i])
  }

  lemma InvertedState(start: seq<Word32>, turned: seq<Word32>, rk: seq<Word32>, rounds: nat, r: nat)
    requires Inverted(start, turned, rk, rounds) && r <= rounds
    ensures KeyState(rk, r) ==
      if r == 0 || r == rounds then KeyState(start, rounds - r) else InvMixAll(KeyState(start, rounds - r))
  {
    hide ColOf, InvMix, Inverted;
    InvertedLengths(start, turned, rk, rounds);
    InvertedWord(start, turned, rk, rounds, r, 0);
    InvertedWord(start, turned, rk, rounds, r, 1);
    InvertedWord(start, turned, rk, rounds, r, 2);
    InvertedWord(start, turned, rk, rounds, r, 3);
  }

  lemma InvertedLengths(start: seq<Word32>, turned: seq<Word32>, rk: seq<Word32>, rounds: nat)
    requires Inverted(start, turned, rk, rounds)
    ensures |start| == |turned| == |rk| == 60 && 1 <= rounds <= 14
  {
  }

  /** Reversal and InvMixColumns on the inner words give the keys of the inverse cipher. */
  lemma InvertedKeys(start: seq<Word32>, turned: seq<Word32>, rk: seq<Word32>, rounds: nat)
    requires Inverted(start, turned, rk, rounds)
    ensures |start| == |rk| == 60 && rounds <= 14
    ensures StateKeys(rk, rounds) == InvKeys(StateKeys(start, rounds))
  {
    hide KeyState, InvMixAll, Inverted;
    InvertedLengths(start, turned, rk, rounds);
    var d, e := StateKeys(rk, rounds), InvKeys(StateKeys(start, rounds));
    forall r: nat | r <= rounds ensures d[r] == e[r] {
      InvertedState(start, turned, rk, rounds, r);
    }
  }

  lemma InvertedWord(start: seq<Word32>, turned: seq<Word32>, rk: seq<Word32>, rounds: nat, r: nat, c: nat)
    requires Inverted(start, turned, rk, rounds) && r <= rounds && c < 4
    ensures |start| == |rk| == 60 && rounds <= 14
    ensures ColOf(rk[4 * r + c]) ==
      if r == 0 || r == rounds then ColOf(start[4 * (rounds - r) + c]) else InvMix(ColOf(start[4 * (rounds - r) + c]))
  {
    hide ColOf, DecKeyWord, InvMix;
    var p := 4 * r + c;
    assert Flip(p, rounds) == 4 * (rounds - r) + c;
    DecKeyWordIs(turned[p]);
  }

  // ---------------------------------------------------------------- the round trip

  /** For every key and block, decryption under the decryption schedule inverts encryption
      under the encryption schedule. */
  lemma DecryptInvertsEncrypt(key: Bytes, x: Bytes)
    requires (|key| == 16 || |key| == 24 || |key| == 32) && |x| == 16
    ensures var keys := KeyStates(KeyWords(key));
      Stored(InvCipher(InvKeys(keys), Loaded(Stored(Cipher(keys, Loaded(x)))))) == x
  {
    hide KeyStates, KeyWords, Cipher, InvCipher, InvKeys, Loaded, Stored;
    var keys := KeyStates(KeyWords(key));
    LoadedStored(Cipher(keys, Loaded(x)));
    InvCipherOfCipher(keys, Loaded(x));
    StoredLoaded(x);
  }

  ghost function AsCipher(key: Bytes): Modes.Cipher
    requires |key| == 16 || |key| == 24 || |key| == 32
  {
    var keys := KeyStates(KeyWords(key));
    Modes.Cipher(16, x => if |x| == 16 then Stored(Cipher(keys, Loaded(x))) else x,
                 x => if |x| == 16 then Stored(InvCipher(InvKeys(keys), Loaded(x))) else x)
  }

  /** AES under a key is an invertible block cipher, so every theorem about the modes applies. */
  lemma AesIsCipher(key: Bytes)
    requires |key| == 16 || |key| == 24 || |key| == 32
    ensures AsCipher(key).Valid() && AsCipher(key).Invertible()
  {
    hide KeyStates, KeyWords, Cipher, InvCipher, InvKeys, Loaded, Stored;
    forall x: Bytes | |x| == 16 ensures AsCipher(key).dec(AsCipher(key).enc(x)) == x {
      DecryptInvertsEncrypt(key, x);
    }
  }
}
