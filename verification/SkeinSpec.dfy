// Skein as sections 3.4 and 3.5 of The Skein Hash Function Family, version 1.3, define it, and
// the incremental form that src/hash/skein/skein_common.c computes.

module SkeinSpec {
  import opened Octets
  import opened Bytes
  import opened Words

  /** A tweakable block cipher: enc(key, tweak, block), size bytes of key and block. */
  datatype Tweakable = Tweakable(size: nat, enc: (Bytes, Bytes, Bytes) -> Bytes) {
    ghost predicate Valid() {
      && size >= 32 && size % 8 == 0
      && forall k, t, b :: |k| == size && |t| == 16 && |b| == size ==> |enc(k, t, b)| == size
    }
  }

  // ---------------------------------------------------------------- the tweak

  /** What a block is for, and its number in the type field (section 3.4). */
  datatype Type = Cfg | Msg | Out

  function Number(typ: Type): nat {
    match typ
    case Cfg => 4
    case Msg => 48
    case Out => 63
  }

  /** The tweak of a block (section 3.4): the position behind it in twelve bytes, of which the
      code uses eight, then the tree level and, in the last byte, the type with the two flags. */
  function Tweak(position: nat, typ: Type, first: bool, final: bool): (t: Bytes)
    ensures |t| == 16
  {
    LeBytes(position % TWO64, 8) + Zeros(7) +
    [ByteOf(Number(typ) + (if first then 64 else 0) + (if final then 128 else 0))]
  }

  /** Encryption under the chaining value with the block fed forward. */
  function Fed(c: Tweakable, g: Bytes, tweak: Bytes, block: Bytes): (r: Bytes)
    requires c.Valid() && |g| == |block| == c.size && |tweak| == 16
    ensures |r| == c.size
  {
    Xor(c.enc(g, tweak, block), block)
  }

  function Min(a: nat, b: nat): (m: nat) {
    if a <= b then a else b
  }

  function Pad(s: Bytes, size: nat): (r: Bytes)
    requires |s| <= size
    ensures |r| == size
  {
    s + Zeros(size - |s|)
  }

  // ---------------------------------------------------------------- unique block iteration

  /** Block i of a message, zero padded. */
  function BlockAt(m: Bytes, i: nat, size: nat): (r: Bytes)
    ensures |r| == size
  {
    var lo := Min(Times(i, size), |m|);
    Pad(m[lo..Min(lo + size, |m|)], size)
  }

  /** The chaining value after i blocks (section 3.4): the tweak of each block is known from its
      number alone. */
  function Chained(c: Tweakable, g: Bytes, m: Bytes, typ: Type, i: nat): (r: Bytes)
    requires c.Valid() && |g| == c.size
    ensures |r| == c.size
  {
    if i == 0 then g
    else
      var end := Times(i, c.size);
      Fed(c, Chained(c, g, m, typ, i - 1), Tweak(Min(end, |m|), typ, i == 1, end >= |m|), BlockAt(m, i - 1, c.size))
  }

  /** At least one block, the last one possibly partial. */
  function BlockCount(n: nat, size: nat): (k: nat)
    requires size > 0
    ensures k >= 1
  {
    if n <= size then 1 else BlockCount(n - size, size) + 1
  }

  function Ubi(c: Tweakable, g: Bytes, m: Bytes, typ: Type): (r: Bytes)
    requires c.Valid() && |g| == c.size
    ensures |r| == c.size
  {
    Chained(c, g, m, typ, BlockCount(|m|, c.size))
  }

  /** The configuration string (section 3.5.2): the schema identifier SHA3 in ASCII, version 1,
      two reserved bytes, the output length in bits, and no tree parameters. */
  function ConfigString(outputBits: nat): (s: Bytes)
    ensures |s| == 32
  {
    [83, 72, 65, 51, 1, 0, 0, 0] + LeBytes(outputBits % TWO64, 8) + Zeros(16)
  }

  function ConfigChain(c: Tweakable, outputBits: nat): (r: Bytes)
    requires c.Valid()
    ensures |r| == c.size
  {
    Ubi(c, Zeros(c.size), ConfigString(outputBits), Cfg)
  }

  /** n bytes of output, from output block i on (section 3.5.4). */
  function Output(c: Tweakable, g: Bytes, i: nat, n: nat): (r: Bytes)
    requires c.Valid() && |g| == c.size
    ensures |r| == n
    decreases n
  {
    if n == 0 then []
    else
      var block := Ubi(c, g, LeBytes(i % TWO64, 8), Out);
      if n <= c.size then block[..n] else block + Output(c, g, i + 1, n - c.size)
  }

  /** The output length of the C code: 32-bit arithmetic on the number of bits. */
  function DigestBytes(outputBits: nat): nat {
    (outputBits + 7) % 0x1_0000_0000 / 8
  }

  /** The length is rounded up to bytes exactly when the 32-bit sum does not overflow. */
  lemma DigestBytesExact(outputBits: nat)
    requires outputBits < 0x1_0000_0000
    ensures 8 * DigestBytes(outputBits) >= outputBits <==> outputBits + 7 < 0x1_0000_0000
    ensures outputBits + 7 < 0x1_0000_0000 ==> 8 * DigestBytes(outputBits) < outputBits + 8
  {
  }

  function Skein(c: Tweakable, outputBits: nat, m: Bytes): (digest: Bytes)
    requires c.Valid()
    ensures |digest| == DigestBytes(outputBits)
  {
    Output(c, Ubi(c, ConfigChain(c, outputBits), m, Msg), 0, DigestBytes(outputBits))
  }

  // ---------------------------------------------------------------- the tweak in two words

  const FLAG_FIRST: Word := 0x4000_0000_0000_0000
  const FLAG_FINAL: Word := 0x8000_0000_0000_0000
  const TYPE_CFG: Word := 0x0400_0000_0000_0000
  const TYPE_MSG: Word := 0x3000_0000_0000_0000
  const TYPE_OUT: Word := 0x3f00_0000_0000_0000
  const VERSION: Word := 0x0000_0001_3341_4853

  function TypeWord(typ: Type): Word {
    match typ
    case Cfg => TYPE_CFG
    case Msg => TYPE_MSG
    case Out => TYPE_OUT
  }

  /** The upper half of the tweak. */
  function Flags(typ: Type, first: bool, final: bool): Word {
    (TypeWord(typ) | (if first then FLAG_FIRST else 0)) | (if final then FLAG_FINAL else 0)
  }

  /** The two words of struct skein_t, as they lie in memory, are the tweak. */
  lemma TweakIs(position: nat, typ: Type, first: bool, final: bool)
    ensures Put64(WordOf(position)) + Put64(Flags(typ, first, final)) == Tweak(position, typ, first, final)
  {
    hide Put64, WordOf, LeBytes, ByteOf, Flags;
    PutNumber(position);
    FlagBytes(typ, first, final);
  }

  lemma FlagBytes(typ: Type, first: bool, final: bool)
    ensures Put64(Flags(typ, first, final)) ==
            Zeros(7) + [ByteOf(Number(typ) + (if first then 64 else 0) + (if final then 128 else 0))]
  {
    hide ByteOf;
    var b: Byte := (match typ case Cfg => 4 case Msg => 48 case Out => 63) + (if first then 64 else 0)
                   + (if final then 128 else 0);
    assert Put64(Flags(typ, first, final)) == [0, 0, 0, 0, 0, 0, 0, b];
    ByteOfVal(b);
  }

  /** The tweak in numbers. */
  lemma TweakInNumbers(position: nat, typ: Type, first: bool, final: bool)
    ensures var t := Tweak(position, typ, first, final);
      && LeValue(t[..8]) == position % TWO64 && (forall i :: 8 <= i < 15 ==> t[i] == 0)
      && ValOf(t[15]) ==
         (if typ == Cfg then 4 else if typ == Msg then 48 else 63)
         + (if first then 64 else 0) + (if final then 128 else 0)
  {
    hide ByteOf, ValOf, LeBytes, LeValue;
    Pow256Of8();
    LeRoundTrip(position % TWO64, 8);
    ByteRoundTrip(Number(typ) + (if first then 64 else 0) + (if final then 128 else 0));
    assert Tweak(position, typ, first, final)[..8] == LeBytes(position % TWO64, 8);
  }

  /** The last byte of the tweak when a block is the only one of its kind. */
  lemma SingleBlocks(position: nat)
    ensures Tweak(position, Cfg, true, true)[15] == 0xc4 && Tweak(position, Msg, true, true)[15] == 0xf0
    ensures Tweak(position, Out, true, true)[15] == 0xff
  {
    hide ByteOf, LeBytes;
    ByteOfVal(0xc4);
    ByteOfVal(0xf0);
    ByteOfVal(0xff);
  }

  lemma VersionBytes()
    ensures Put64(VERSION) == [83, 72, 65, 51, 1, 0, 0, 0]
  {
  }

  function Compressed(c: Tweakable, g: Bytes, pos: Word, flags: Word, block: Bytes): (r: Bytes)
    requires c.Valid() && |g| == |block| == c.size
    ensures |r| == c.size
  {
    Fed(c, g, Put64(pos) + Put64(flags), block)
  }

  // ---------------------------------------------------------------- the running state

  /** state and tweak of struct skein_t. */
  datatype Running = Running(g: Bytes, pos: Word, flags: Word)

  ghost predicate Fits(c: Tweakable, u: Running) {
    c.Valid() && |u.g| == c.size
  }

  function ClearFirst(flags: Word): Word {
    flags & !FLAG_FIRST
  }

  function SetFinal(flags: Word): Word {
    flags | FLAG_FINAL
  }

  /** One turn of skein_compression. */
  function Step(c: Tweakable, u: Running, block: Bytes, add: nat): (r: Running)
    requires Fits(c, u) && |block| == c.size
    ensures Fits(c, r)
  {
    var pos := Add(u.pos, WordOf(add));
    Running(Compressed(c, u.g, pos, u.flags, block), pos, ClearFirst(u.flags))
  }

  /** n turns on consecutive blocks. */
  function Steps(c: Tweakable, u: Running, blocks: Bytes, n: nat, add: nat): (r: Running)
    requires Fits(c, u) && |blocks| == Times(n, c.size)
    ensures Fits(c, r)
    decreases n
  {
    if n == 0 then u
    else Steps(c, Step(c, u, blocks[..c.size], add), blocks[c.size..], n - 1, add)
  }

  /** What is left after compressing every block known not to be the last. */
  function Absorb(c: Tweakable, u: Running, m: Bytes): (r: (Running, Bytes))
    requires Fits(c, u)
    ensures Fits(c, r.0) && |r.1| <= c.size && (m != [] ==> r.1 != [])
    decreases |m|
  {
    if |m| > c.size then Absorb(c, Step(c, u, m[..c.size], c.size), m[c.size..]) else (u, m)
  }

  /** Absorbing can be interrupted anywhere. */
  lemma {:induction false} AbsorbAppend(c: Tweakable, u: Running, m: Bytes, n: Bytes)
    requires Fits(c, u)
    ensures var (v, rest) := Absorb(c, u, m);
      Absorb(c, u, m + n) == Absorb(c, v, rest + n)
    decreases |m|
  {
    hide Step, Tweakable.Valid;
    if |m| > c.size {
      ValidSize(c);
      var v := Step(c, u, m[..c.size], c.size);
      AbsorbAppend(c, v, m[c.size..], n);
      assert (m + n)[..c.size] == m[..c.size];
      assert (m + n)[c.size..] == m[c.size..] + n;
    }
  }

  lemma ValidSize(c: Tweakable)
    requires c.Valid()
    ensures c.size >= 32 && c.size % 8 == 0
  {
  }

  /** All whole blocks but the last can be compressed in one call. */
  lemma {:induction false} AbsorbBulk(c: Tweakable, u: Running, m: Bytes, n: nat)
    requires Fits(c, u) && Times(n, c.size) < |m| <= Times(n + 1, c.size)
    ensures Absorb(c, u, m) == (Steps(c, u, m[..Times(n, c.size)], n, c.size), m[Times(n, c.size)..])
    decreases n
  {
    hide Step, Tweakable.Valid;
    if n > 0 {
      ValidSize(c);
      TimesBound(n, c.size);
      var v := Step(c, u, m[..c.size], c.size);
      AbsorbBulk(c, v, m[c.size..], n - 1);
      var front := m[..Times(n, c.size)];
      assert front[..c.size] == m[..c.size];
      assert front[c.size..] == m[c.size..][..Times(n - 1, c.size)];
      assert m[c.size..][Times(n - 1, c.size)..] == m[Times(n, c.size)..];
    }
  }

  lemma {:induction false} TimesBound(n: nat, size: nat)
    ensures n > 0 ==> Times(n, size) >= size
  {
    if n > 1 {
      TimesBound(n - 1, size);
    }
  }

  // ---------------------------------------------------------------- running state and chain

  lemma FlagSteps(typ: Type, first: bool)
    ensures ClearFirst(Flags(typ, first, false)) == Flags(typ, false, false)
    ensures SetFinal(Flags(typ, first, false)) == Flags(typ, first, true)
  {
  }

  /** The running state in front of block k, which is not the last one started. */
  function Before(c: Tweakable, g: Bytes, m: Bytes, typ: Type, k: nat): (r: Running)
    requires c.Valid() && |g| == c.size
    ensures Fits(c, r)
  {
    Running(Chained(c, g, m, typ, k), WordOf(Times(k, c.size)), Flags(typ, k == 0, false))
  }

  lemma BeforeNext(c: Tweakable, g: Bytes, m: Bytes, typ: Type, k: nat)
    requires c.Valid() && |g| == c.size && Times(k + 1, c.size) < |m|
    ensures Step(c, Before(c, g, m, typ, k), m[Times(k, c.size)..Times(k + 1, c.size)], c.size) ==
            Before(c, g, m, typ, k + 1)
  {
    hide Tweakable.Valid, Fed, Put64, Tweak, Add, WordOf, Flags, ClearFirst;
    WordOfSum(Times(k, c.size), c.size);
    FlagSteps(typ, k == 0);
    TweakIs(Times(k + 1, c.size), typ, k == 0, false);
    assert BlockAt(m, k, c.size) == m[Times(k, c.size)..Times(k + 1, c.size)];
  }

  lemma BeforeLast(c: Tweakable, g: Bytes, m: Bytes, typ: Type, k: nat)
    requires c.Valid() && |g| == c.size
    requires Times(k, c.size) <= |m| <= Times(k + 1, c.size)
    ensures var u, rest := Before(c, g, m, typ, k), m[Times(k, c.size)..];
      Step(c, u.(flags := SetFinal(u.flags)), Pad(rest, c.size), |rest|).g == Chained(c, g, m, typ, k + 1)
  {
    hide Tweakable.Valid, Fed, Put64, Tweak, Add, WordOf, Flags, ClearFirst, SetFinal;
    WordOfSum(Times(k, c.size), |m| - Times(k, c.size));
    FlagSteps(typ, k == 0);
    TweakIs(|m|, typ, k == 0, true);
    assert BlockAt(m, k, c.size) == Pad(m[Times(k, c.size)..], c.size);
  }

  /** The last block starts before the end of the message, unless it is the only one. */
  ghost predicate LastBlock(m: Bytes, size: nat, n: nat) {
    Times(n, size) <= |m| <= Times(n + 1, size) && (n == 0 || Times(n, size) < |m|)
  }

  lemma {:induction false} BlockCountIs(m: Bytes, size: nat, k: nat)
    requires size > 0 && Times(k, size) <= |m| && (k == 0 || Times(k, size) < |m|)
    ensures LastBlock(m, size, k + BlockCount(|m| - Times(k, size), size) - 1)
    decreases |m| - Times(k, size)
  {
    if |m| - Times(k, size) > size {
      BlockCountIs(m, size, k + 1);
    }
  }

  /** After T > 0 bytes exactly the blocks whose end lies before T are compressed, 1 to size
      bytes are kept, the position is T less the kept bytes, and FIRST is set only before the
      first block. */
  lemma {:induction false} AbsorbIsChain(c: Tweakable, g: Bytes, m: Bytes, typ: Type, k: nat, n: nat)
    requires c.Valid() && |g| == c.size
    requires k <= n && LastBlock(m, c.size, n) && Times(k, c.size) <= |m|
    ensures Absorb(c, Before(c, g, m, typ, k), m[Times(k, c.size)..]) ==
      (Before(c, g, m, typ, n), m[Times(n, c.size)..])
    decreases n - k
  {
    hide Tweakable.Valid, Step, Before;
    ValidSize(c);
    if k < n {
      var rest := m[Times(k, c.size)..];
      TimesMonotone(k + 1, n, c.size);
      BeforeNext(c, g, m, typ, k);
      AbsorbIsChain(c, g, m, typ, k + 1, n);
      assert rest[..c.size] == m[Times(k, c.size)..Times(k + 1, c.size)];
      assert rest[c.size..] == m[Times(k + 1, c.size)..];
    }
  }

  lemma {:induction false} TimesMonotone(j: nat, k: nat, size: nat)
    requires j <= k
    ensures Times(j, size) <= Times(k, size)
  {
    if j < k {
      TimesMonotone(j, k - 1, size);
    }
  }

  lemma WordOfZero()
    ensures WordOf(0) == 0
  {
    assert LeBytes(0, 8) == [0, 0, 0, 0, 0, 0, 0, 0];
  }

  function Start(g: Bytes, typ: Type): Running {
    Running(g, 0, Flags(typ, true, false))
  }

  /** Absorbing a message piece by piece and then compressing the padded rest is unique block
      iteration over the whole message. */
  lemma AbsorbThenLast(c: Tweakable, g: Bytes, m: Bytes, typ: Type)
    requires c.Valid() && |g| == c.size
    ensures var (u, rest) := Absorb(c, Start(g, typ), m);
      Step(c, u.(flags := SetFinal(u.flags)), Pad(rest, c.size), |rest|).g == Ubi(c, g, m, typ)
  {
    hide Tweakable.Valid, Step, Absorb, Flags, WordOf;
    ValidSize(c);
    WordOfZero();
    var n := BlockCount(|m|, c.size) - 1;
    BlockCountIs(m, c.size, 0);
    AbsorbIsChain(c, g, m, typ, 0, n);
    assert m[0..] == m;
    BeforeLast(c, g, m, typ, n);
  }

  /** A message of at most one block takes a single step with both flags. */
  lemma OneBlock(c: Tweakable, g: Bytes, m: Bytes, typ: Type)
    requires c.Valid() && |g| == c.size && |m| <= c.size
    ensures Step(c, Running(g, 0, Flags(typ, true, true)), Pad(m, c.size), |m|).g == Ubi(c, g, m, typ)
  {
    hide Tweakable.Valid, Step, Flags;
    AbsorbThenLast(c, g, m, typ);
    FlagSteps(typ, true);
  }
}
