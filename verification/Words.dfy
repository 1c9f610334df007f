// 64-bit machine words: the little-endian loads and stores of src/utils/endian-neutral.h
// and arithmetic modulo 2^64.

module Words {
  import opened Octets
  import opened Bytes

  type Word = bv64

  const TWO64: int := 0x1_0000_0000_0000_0000

  // ---------------------------------------------------------------- loads and stores

  /** _get_uint64_l */
  function Get64(s: Bytes): Word
    requires |s| == 8
  {
    (s[7] as Word << 56) | (s[6] as Word << 48) | (s[5] as Word << 40) | (s[4] as Word << 32) |
    (s[3] as Word << 24) | (s[2] as Word << 16) | (s[1] as Word << 8) | (s[0] as Word)
  }

  /** _put_uint64_l */
  function Put64(w: Word): (s: Bytes)
    ensures |s| == 8
  {
    [(w & 0xff) as Byte, ((w >> 8) & 0xff) as Byte, ((w >> 16) & 0xff) as Byte, ((w >> 24) & 0xff) as Byte,
     ((w >> 32) & 0xff) as Byte, ((w >> 40) & 0xff) as Byte, ((w >> 48) & 0xff) as Byte, ((w >> 56) & 0xff) as Byte]
  }

  lemma GetPut64(w: Word)
    ensures Get64(Put64(w)) == w
  {
  }

  lemma PutGet64(s: Bytes)
    requires |s| == 8
    ensures Put64(Get64(s)) == s
  {
    var t := Put64(Get64(s));
    assert forall k :: 0 <= k < 8 ==> t[k] == s[k];
  }

  // ---------------------------------------------------------------- little-endian numbers

  /** The value of a little-endian byte string. */
  function LeValue(s: Bytes): (n: nat)
  {
    if s == [] then 0 else ValOf(s[0]) + 256 * LeValue(s[1..])
  }

  /** The k low-order bytes of n, least significant first. */
  function LeBytes(n: nat, k: nat): (s: Bytes)
    ensures |s| == k
  {
    if k == 0 then [] else [ByteOf(n % 256)] + LeBytes(n / 256, k - 1)
  }

  function Pow256(k: nat): (p: nat)
    ensures p > 0
  {
    if k == 0 then 1 else 256 * Pow256(k - 1)
  }

  lemma {:induction false} LeValueBound(s: Bytes)
    ensures LeValue(s) < Pow256(|s|)
  {
    if s != [] {
      LeValueBound(s[1..]);
    }
  }

  lemma LowByte(b: nat, rest: nat)
    requires b < 256
    ensures (b + 256 * rest) % 256 == b && (b + 256 * rest) / 256 == rest
  {
  }

  /** Decoding what was encoded gives the number back when it fits in k bytes. */
  lemma {:induction false} LeRoundTrip(n: nat, k: nat)
    requires n < Pow256(k)
    ensures LeValue(LeBytes(n, k)) == n
  {
    hide ValOf, ByteOf;
    if k > 0 {
      LeRoundTrip(n / 256, k - 1);
      ByteRoundTrip(n % 256);
      assert LeBytes(n, k)[1..] == LeBytes(n / 256, k - 1);
    }
  }

  lemma {:induction false} LeBytesOfValue(s: Bytes)
    ensures LeBytes(LeValue(s), |s|) == s
  {
    hide ValOf, ByteOf;
    if s != [] {
      LeBytesOfValue(s[1..]);
      LowByte(ValOf(s[0]), LeValue(s[1..]));
      ByteOfVal(s[0]);
      assert s == [s[0]] + s[1..];
    }
  }

  lemma Pow256Of8()
    ensures Pow256(8) == TWO64 && Pow256(4) == 0x1_0000_0000
  {
    assert Pow256(2) == 65536;
    assert Pow256(4) == 0x1_0000_0000;
    assert Pow256(6) == 0x1_0000_0000_0000;
  }

  // ---------------------------------------------------------------- arithmetic modulo 2^64

  function ValueOf(w: Word): (n: nat)
    ensures n < TWO64
  {
    LeValueBound(Put64(w));
    Pow256Of8();
    LeValue(Put64(w))
  }

  /** The conversion of a number to uint64_t, wrapping at 2^64. */
  function WordOf(n: int): Word
  {
    Get64(LeBytes(n % TWO64, 8))
  }

  lemma ValueOfWordOf(n: int)
    ensures ValueOf(WordOf(n)) == n % TWO64
  {
    hide Get64, Put64;
    var s := LeBytes(n % TWO64, 8);
    PutGet64(s);
    Pow256Of8();
    LeRoundTrip(n % TWO64, 8);
  }

  /** Storing a number stores its low-order bytes. */
  lemma PutNumber(n: int)
    ensures Put64(WordOf(n)) == LeBytes(n % TWO64, 8)
  {
    hide Get64, Put64, LeBytes;
    PutGet64(LeBytes(n % TWO64, 8));
  }

  /** The number in eight bytes goes up by n, modulo 2^64, when the word in them does. */
  lemma AddToBytes(s: Bytes, n: int)
    requires |s| == 8
    ensures LeValue(Put64(Add(Get64(s), WordOf(n)))) == (LeValue(s) + n) % TWO64
  {
    hide Get64, Put64, LeValue, WordOf;
    PutGet64(s);
    AddCommutes(Get64(s), WordOf(n));
    AddToWordOf(n, Get64(s));
    ValueOfWordOf(n + ValueOf(Get64(s)));
  }

  /** Byte strings of one length are equal when their numbers are. */
  lemma SameNumber(a: Bytes, b: Bytes)
    requires |a| == |b| && LeValue(a) == LeValue(b)
    ensures a == b
  {
    LeBytesOfValue(a);
    LeBytesOfValue(b);
  }

  lemma WordOfValueOf(w: Word)
    ensures WordOf(ValueOf(w)) == w
  {
    hide Get64, Put64, LeBytes, LeValue;
    LeBytesOfValue(Put64(w));
    GetPut64(w);
    assert ValueOf(w) % TWO64 == ValueOf(w);
  }

  function Add(a: Word, b: Word): Word {
    WordOf(ValueOf(a) + ValueOf(b))
  }

  function Sub(a: Word, b: Word): Word {
    WordOf(ValueOf(a) - ValueOf(b))
  }

  function XorW(a: Word, b: Word): Word {
    a ^ b
  }

  lemma XorWCancels(a: Word, b: Word)
    ensures XorW(XorW(a, b), b) == a
  {
  }

  lemma ModAdd(a: int, b: int)
    ensures (a % TWO64 + b) % TWO64 == (a + b) % TWO64
  {
  }

  lemma AddCommutes(a: Word, b: Word)
    ensures Add(a, b) == Add(b, a)
  {
  }

  lemma AddToWordOf(n: int, c: Word)
    ensures Add(WordOf(n), c) == WordOf(n + ValueOf(c))
  {
    hide WordOf, ValueOf;
    ValueOfWordOf(n);
    ModAdd(n, ValueOf(c));
    WordOfMod(n % TWO64 + ValueOf(c), n + ValueOf(c));
  }

  lemma AddAssociates(a: Word, b: Word, c: Word)
    ensures Add(Add(a, b), c) == Add(a, Add(b, c))
  {
    hide WordOf, ValueOf;
    AddToWordOf(ValueOf(a) + ValueOf(b), c);
    AddToWordOf(ValueOf(b) + ValueOf(c), a);
    AddCommutes(a, Add(b, c));
  }

  lemma WordOfMod(m: int, n: int)
    requires m % TWO64 == n % TWO64
    ensures WordOf(m) == WordOf(n)
  {
  }

  lemma SubAdd(a: Word, b: Word)
    ensures Sub(Add(a, b), b) == a
  {
    hide WordOf, ValueOf;
    ValueOfWordOf(ValueOf(a) + ValueOf(b));
    WordOfMod(ValueOf(Add(a, b)) - ValueOf(b), ValueOf(a));
    WordOfValueOf(a);
  }

  /** Converting sizes commutes with adding them. */
  lemma WordOfSum(m: int, n: int)
    ensures WordOf(m + n) == Add(WordOf(m), WordOf(n))
  {
    hide WordOf, ValueOf;
    ValueOfWordOf(m);
    ValueOfWordOf(n);
    WordOfMod(m + n, ValueOf(WordOf(m)) + ValueOf(WordOf(n)));
  }

  lemma AddZero(a: Word)
    ensures Add(a, WordOf(0)) == a
  {
    hide WordOf, ValueOf;
    ValueOfWordOf(0);
    WordOfValueOf(a);
  }

  // ---------------------------------------------------------------- words and their bits

  function Bit(w: Word, k: nat): nat
    requires k < 64
  {
    if (w >> k) & 1 == 1 then 1 else 0
  }

  /** The number that the bits of w from k on stand for. */
  function FromBits(w: Word, k: nat): nat
    requires k <= 64
    decreases 64 - k
  {
    if k == 64 then 0 else Bit(w, k) + 2 * FromBits(w, k + 1)
  }

  function BitOf(b: Byte, k: nat): nat
    requires k < 8
  {
    if (b >> k) & 1 == 1 then 1 else 0
  }

  function Eight(a: nat, b: nat, c: nat, d: nat, e: nat, f: nat, g: nat, h: nat): nat {
    a + 2 * b + 4 * c + 8 * d + 16 * e + 32 * f + 64 * g + 128 * h
  }

  lemma ByteIsBits(b: Byte)
    ensures ValOf(b) == Eight(BitOf(b, 0), BitOf(b, 1), BitOf(b, 2), BitOf(b, 3), BitOf(b, 4), BitOf(b, 5),
                              BitOf(b, 6), BitOf(b, 7))
  {
    hide ValOf, BitOf;
    HalfByte(b);
    HalfByte(b >> 1);
    HalfByte(b >> 2);
    HalfByte(b >> 3);
    HalfByte(b >> 4);
    HalfByte(b >> 5);
    HalfByte(b >> 6);
    HalfByte(b >> 7);
    ByteShifts(b);
    ByteShiftsOn(b);
  }

  lemma HalfByte(b: Byte)
    ensures ValOf(b) == BitOf(b, 0) + 2 * ValOf(b >> 1)
  {
  }

  lemma ByteShifts(b: Byte)
    ensures (b >> 1) >> 1 == b >> 2 && (b >> 2) >> 1 == b >> 3 && (b >> 3) >> 1 == b >> 4 && (b >> 4) >> 1 == b >> 5
    ensures (b >> 5) >> 1 == b >> 6 && (b >> 6) >> 1 == b >> 7 && ValOf((b >> 7) >> 1) == 0
  {
    assert (b >> 7) >> 1 == 0;
  }

  lemma ByteShiftsOn(b: Byte)
    ensures BitOf(b >> 1, 0) == BitOf(b, 1) && BitOf(b >> 2, 0) == BitOf(b, 2) && BitOf(b >> 3, 0) == BitOf(b, 3)
    ensures BitOf(b >> 4, 0) == BitOf(b, 4) && BitOf(b >> 5, 0) == BitOf(b, 5) && BitOf(b >> 6, 0) == BitOf(b, 6)
    ensures BitOf(b >> 7, 0) == BitOf(b, 7)
  {
  }

  lemma EightMore(w: Word, k: nat)
    requires k + 8 <= 64
    ensures FromBits(w, k) == Eight(Bit(w, k), Bit(w, k + 1), Bit(w, k + 2), Bit(w, k + 3), Bit(w, k + 4),
                                    Bit(w, k + 5), Bit(w, k + 6), Bit(w, k + 7)) + 256 * FromBits(w, k + 8)
  {
    hide Bit;
    assert FromBits(w, k) == Bit(w, k) + 2 * FromBits(w, k + 1);
    assert FromBits(w, k + 2) == Bit(w, k + 2) + 2 * FromBits(w, k + 3);
    assert FromBits(w, k + 4) == Bit(w, k + 4) + 2 * FromBits(w, k + 5);
    assert FromBits(w, k + 6) == Bit(w, k + 6) + 2 * FromBits(w, k + 7);
  }

  lemma Byte0L(w: Word)
    ensures var b := Put64(w)[0];
      && BitOf(b, 0) == Bit(w, 0) && BitOf(b, 1) == Bit(w, 1)
      && BitOf(b, 2) == Bit(w, 2) && BitOf(b, 3) == Bit(w, 3)
  {
  }

  lemma Byte0H(w: Word)
    ensures var b := Put64(w)[0];
      && BitOf(b, 4) == Bit(w, 4) && BitOf(b, 5) == Bit(w, 5)
      && BitOf(b, 6) == Bit(w, 6) && BitOf(b, 7) == Bit(w, 7)
  {
  }

  lemma Byte1L(w: Word)
    ensures var b := Put64(w)[1];
      && BitOf(b, 0) == Bit(w, 8) && BitOf(b, 1) == Bit(w, 9)
      && BitOf(b, 2) == Bit(w, 10) && BitOf(b, 3) == Bit(w, 11)
  {
  }

  lemma Byte1H(w: Word)
    ensures var b := Put64(w)[1];
      && BitOf(b, 4) == Bit(w, 12) && BitOf(b, 5) == Bit(w, 13)
      && BitOf(b, 6) == Bit(w, 14) && BitOf(b, 7) == Bit(w, 15)
  {
  }

  lemma Byte2L(w: Word)
    ensures var b := Put64(w)[2];
      && BitOf(b, 0) == Bit(w, 16) && BitOf(b, 1) == Bit(w, 17)
      && BitOf(b, 2) == Bit(w, 18) && BitOf(b, 3) == Bit(w, 19)
  {
  }

  lemma Byte2H(w: Word)
    ensures var b := Put64(w)[2];
      && BitOf(b, 4) == Bit(w, 20) && BitOf(b, 5) == Bit(w, 21)
      && BitOf(b, 6) == Bit(w, 22) && BitOf(b, 7) == Bit(w, 23)
  {
  }

  lemma Byte3L(w: Word)
    ensures var b := Put64(w)[3];
      && BitOf(b, 0) == Bit(w, 24) && BitOf(b, 1) == Bit(w, 25)
      && BitOf(b, 2) == Bit(w, 26) && BitOf(b, 3) == Bit(w, 27)
  {
  }

  lemma Byte3H(w: Word)
    ensures var b := Put64(w)[3];
      && BitOf(b, 4) == Bit(w, 28) && BitOf(b, 5) == Bit(w, 29)
      && BitOf(b, 6) == Bit(w, 30) && BitOf(b, 7) == Bit(w, 31)
  {
  }

  lemma Byte4L(w: Word)
    ensures var b := Put64(w)[4];
      && BitOf(b, 0) == Bit(w, 32) && BitOf(b, 1) == Bit(w, 33)
      && BitOf(b, 2) == Bit(w, 34) && BitOf(b, 3) == Bit(w, 35)
  {
  }

  lemma Byte4H(w: Word)
    ensures var b := Put64(w)[4];
      && BitOf(b, 4) == Bit(w, 36) && BitOf(b, 5) == Bit(w, 37)
      && BitOf(b, 6) == Bit(w, 38) && BitOf(b, 7) == Bit(w, 39)
  {
  }

  lemma Byte5L(w: Word)
    ensures var b := Put64(w)[5];
      && BitOf(b, 0) == Bit(w, 40) && BitOf(b, 1) == Bit(w, 41)
      && BitOf(b, 2) == Bit(w, 42) && BitOf(b, 3) == Bit(w, 43)
  {
  }

  lemma Byte5H(w: Word)
    ensures var b := Put64(w)[5];
      && BitOf(b, 4) == Bit(w, 44) && BitOf(b, 5) == Bit(w, 45)
      && BitOf(b, 6) == Bit(w, 46) && BitOf(b, 7) == Bit(w, 47)
  {
  }

  lemma Byte6L(w: Word)
    ensures var b := Put64(w)[6];
      && BitOf(b, 0) == Bit(w, 48) && BitOf(b, 1) == Bit(w, 49)
      && BitOf(b, 2) == Bit(w, 50) && BitOf(b, 3) == Bit(w, 51)
  {
  }

  lemma Byte6H(w: Word)
    ensures var b := Put64(w)[6];
      && BitOf(b, 4) == Bit(w, 52) && BitOf(b, 5) == Bit(w, 53)
      && BitOf(b, 6) == Bit(w, 54) && BitOf(b, 7) == Bit(w, 55)
  {
  }

  lemma Byte7L(w: Word)
    ensures var b := Put64(w)[7];
      && BitOf(b, 0) == Bit(w, 56) && BitOf(b, 1) == Bit(w, 57)
      && BitOf(b, 2) == Bit(w, 58) && BitOf(b, 3) == Bit(w, 59)
  {
  }

  lemma Byte7H(w: Word)
    ensures var b := Put64(w)[7];
      && BitOf(b, 4) == Bit(w, 60) && BitOf(b, 5) == Bit(w, 61)
      && BitOf(b, 6) == Bit(w, 62) && BitOf(b, 7) == Bit(w, 63)
  {
    hide Put64;
    var b := ((w >> 56) & 0xff) as Byte;
    Put64Top(w);
    assert (b >> 4) & 1 == 1 <==> (w >> 60) & 1 == 1;
    assert (b >> 5) & 1 == 1 <==> (w >> 61) & 1 == 1;
    assert (b >> 6) & 1 == 1 <==> (w >> 62) & 1 == 1;
    assert (b >> 7) & 1 == 1 <==> (w >> 63) & 1 == 1;
  }

  lemma Put64Top(w: Word)
    ensures Put64(w)[7] == ((w >> 56) & 0xff) as Byte
  {
  }

  lemma ByteBits(w: Word, i: nat)
    requires i < 8
    ensures ValOf(Put64(w)[i]) == Eight(Bit(w, 8 * i), Bit(w, 8 * i + 1), Bit(w, 8 * i + 2), Bit(w, 8 * i + 3),
                                        Bit(w, 8 * i + 4), Bit(w, 8 * i + 5), Bit(w, 8 * i + 6), Bit(w, 8 * i + 7))
  {
    hide Bit, BitOf, Put64, ValOf, Eight;
    ByteIsBits(Put64(w)[i]);
    match i
    case 0 =>
      Byte0L(w);
      Byte0H(w);
    case 1 =>
      Byte1L(w);
      Byte1H(w);
    case 2 =>
      Byte2L(w);
      Byte2H(w);
    case 3 =>
      Byte3L(w);
      Byte3H(w);
    case 4 =>
      Byte4L(w);
      Byte4H(w);
    case 5 =>
      Byte5L(w);
      Byte5H(w);
    case 6 =>
      Byte6L(w);
      Byte6H(w);
    case 7 =>
      Byte7L(w);
      Byte7H(w);
  }

  lemma {:induction false} TailIsBits(w: Word, i: nat)
    requires i <= 8
    ensures LeValue(Put64(w)[i..]) == FromBits(w, 8 * i)
    decreases 8 - i
  {
    hide Bit, BitOf, Put64, ValOf, Eight, FromBits;
    if i == 8 {
      NoBits(w);
      assert Put64(w)[8..] == [];
    } else {
      TailIsBits(w, i + 1);
      ByteBits(w, i);
      EightMore(w, 8 * i);
      assert Put64(w)[i..][1..] == Put64(w)[i + 1..] && Put64(w)[i..][0] == Put64(w)[i];
    }
  }

  lemma NoBits(w: Word)
    ensures FromBits(w, 64) == 0
  {
  }

  /** The number of a word, by way of its bytes in memory, is the one its bits stand for. */
  lemma ValueIsBits(w: Word)
    ensures ValueOf(w) == FromBits(w, 0)
  {
    hide Bit, Put64, FromBits;
    TailIsBits(w, 0);
    assert Put64(w)[0..] == Put64(w);
  }

  // ---------------------------------------------------------------- runs of words

  /** copy_uint64_t: n words read from 8n bytes. */
  function LoadWords(s: Bytes, n: nat): (w: seq<Word>)
    requires |s| == 8 * n
    ensures |w| == n
  {
    seq(n, i requires 0 <= i < n => Get64(s[8 * i..8 * i + 8]))
  }

  function StoreWords(w: seq<Word>): (s: Bytes)
    ensures |s| == 8 * |w|
  {
    if w == [] then [] else StoreWords(w[..|w| - 1]) + Put64(w[|w| - 1])
  }

  lemma {:induction false} StoredWord(w: seq<Word>, i: nat)
    requires i < |w|
    ensures StoreWords(w)[8 * i..8 * i + 8] == Put64(w[i])
  {
    hide Put64;
    var m := |w| - 1;
    if i < m {
      StoredWord(w[..m], i);
      assert StoreWords(w)[8 * i..8 * i + 8] == StoreWords(w[..m])[8 * i..8 * i + 8];
    }
  }

  lemma LoadStoreWords(w: seq<Word>)
    ensures LoadWords(StoreWords(w), |w|) == w
  {
    hide Get64, Put64, StoreWords;
    forall i: nat | i < |w| ensures LoadWords(StoreWords(w), |w|)[i] == w[i] {
      StoredWord(w, i);
      GetPut64(w[i]);
    }
  }

  lemma {:induction false} StoreLoadWords(s: Bytes, n: nat)
    requires |s| == 8 * n
    ensures StoreWords(LoadWords(s, n)) == s
  {
    hide Get64, Put64, LoadWords;
    if n > 0 {
      StoreLoadWords(s[..8 * n - 8], n - 1);
      LoadFront(s, n);
      PutGet64(s[8 * n - 8..8 * n]);
      Rejoined(s, 8 * n - 8);
    }
  }

  lemma Rejoined(s: Bytes, m: nat)
    requires m <= |s|
    ensures s[..m] + s[m..|s|] == s
  {
  }

  lemma LoadFront(s: Bytes, n: nat)
    requires |s| == 8 * n && n > 0
    ensures LoadWords(s, n)[..n - 1] == LoadWords(s[..8 * n - 8], n - 1)
    ensures LoadWords(s, n)[n - 1] == Get64(s[8 * n - 8..8 * n])
  {
    hide Get64;
    forall i: nat | i < n - 1 ensures LoadWords(s, n)[i] == LoadWords(s[..8 * n - 8], n - 1)[i] {
      assert s[8 * i..8 * i + 8] == s[..8 * n - 8][8 * i..8 * i + 8];
    }
  }
}
