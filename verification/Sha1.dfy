// sha1_compress and struct sha1_t (src/hash/sha1/sha1.c): the circular 16-word schedule, the
// rotated registers, and the buffering of sha1_update.

module Sha1 {
  import opened Octets
  import opened Bytes
  import opened Words32
  import opened Sha1Spec

  // ---------------------------------------------------------------- the macros of the rounds

  /** blk0: swap the bytes of a word loaded in little-endian order. */
  function Swap(w: Word32): Word32 {
    (((w << 24) | (w >> 8)) & 0xff00ff00) | (((w << 8) | (w >> 24)) & 0x00ff00ff)
  }

  lemma SwapLoads(s: Bytes)
    requires |s| == 4
    ensures Swap(Get32l(s)) == Get32b(s)
  {
  }

  /** The Boolean functions of R0 to R4, written as in the macros. */
  function MacroF(i: nat, w: Word32, x: Word32, y: Word32): Word32 {
    if i < 20 then (w & (x ^ y)) ^ y
    else if i < 40 then w ^ x ^ y
    else if i < 60 then ((w | x) & y) | (w & x)
    else w ^ x ^ y
  }

  lemma ChForm(w: Word32, x: Word32, y: Word32)
    ensures (w & (x ^ y)) ^ y == Ch(w, x, y)
  {
  }

  lemma MajForm(w: Word32, x: Word32, y: Word32)
    ensures ((w | x) & y) | (w & x) == Maj(w, x, y)
  {
  }

  lemma MacroFIsF(i: nat, w: Word32, x: Word32, y: Word32)
    ensures MacroF(i, w, x, y) == F(i, w, x, y)
  {
    hide Ch, Maj;
    ChForm(w, x, y);
    MajForm(w, x, y);
  }

  /** The constants of R0 to R4. */
  function MacroK(i: nat): Word32 {
    if i < 20 then 0x5a827999
    else if i < 40 then 0x6ed9eba1
    else if i < 60 then 0x8f1bbcdc
    else 0xca62c1d6
  }

  lemma MacroKIsK(i: nat)
    ensures MacroK(i) == K(i)
  {
  }

  /** z += f + blk + constant + rol32(v, 5) */
  function MacroSum(z: Word32, f: Word32, blk: Word32, k: Word32, v5: Word32): Word32 {
    z + (f + blk + k + v5)
  }

  lemma MacroSumIsSum(z: Word32, f: Word32, blk: Word32, k: Word32, v5: Word32)
    ensures MacroSum(z, f, blk, k, v5) == Sum5(v5, f, z, k, blk)
  {
  }

  /** The register that plays part j (v, w, x, y, z) in round i: the arguments of the macro
      calls move one place to the right each time. */
  function Reg(j: nat, i: nat): (r: nat)
    ensures r < 5
  {
    (j + 4 * i) % 5
  }

  lemma RegsDistinct(j: nat, k: nat, i: nat)
    requires j < 5 && k < 5 && j != k
    ensures Reg(j, i) != Reg(k, i)
  {
  }

  lemma RegNext(j: nat, i: nat)
    requires j < 5
    ensures Reg(j, i + 1) == if j == 0 then Reg(4, i) else Reg(j - 1, i)
  {
  }

  ghost predicate Plays(r: seq<Word32>, s: Working, i: nat) {
    && |r| == 5
    && r[Reg(0, i)] == s.a && r[Reg(1, i)] == s.b && r[Reg(2, i)] == s.c
    && r[Reg(3, i)] == s.d && r[Reg(4, i)] == s.e
  }

  lemma PlaysNext(r: seq<Word32>, s: Working, i: nat, z: Word32, w: Word32)
    requires Plays(r, s, i)
    ensures Plays(r[Reg(4, i) := z][Reg(1, i) := w], Working(z, s.a, w, s.c, s.d), i + 1)
  {
    hide Reg;
    RegNext(0, i);
    RegNext(1, i);
    RegNext(2, i);
    RegNext(3, i);
    RegNext(4, i);
    RegsDistinct(4, 0, i);
    RegsDistinct(4, 1, i);
    RegsDistinct(4, 2, i);
    RegsDistinct(4, 3, i);
    RegsDistinct(1, 0, i);
    RegsDistinct(1, 2, i);
    RegsDistinct(1, 3, i);
  }

  // ---------------------------------------------------------------- the circular schedule

  /** Before round i the block holds the last 16 schedule words, and before round 16 the words
      not yet swapped. */
  ghost predicate Window(block: seq<Word32>, start: seq<Word32>, m: seq<Word32>, i: nat) {
    && |block| == |start| == |m| == 16
    && (forall t: nat :: t < i <= t + 16 ==> block[t % 16] == W(m, t))
    && (forall k :: i <= k < 16 ==> block[k] == start[k])
  }

  lemma WindowNext(block: seq<Word32>, start: seq<Word32>, m: seq<Word32>, i: nat)
    requires Window(block, start, m, i)
    ensures Window(block[i % 16 := W(m, i)], start, m, i + 1)
  {
    hide W;
    var next := block[i % 16 := W(m, i)];
    forall t: nat | t < i + 1 <= t + 16 ensures next[t % 16] == W(m, t) {
      if t < i {
        CellsDiffer(t, i);
        assert block[t % 16] == W(m, t);
      }
    }
  }

  lemma CellsDiffer(t: nat, i: nat)
    requires t < i < t + 16
    ensures t % 16 != i % 16
  {
  }

  /** The cells that blk(i) reads hold the four words of the recurrence. */
  lemma CellsRead(block: seq<Word32>, start: seq<Word32>, m: seq<Word32>, i: nat)
    requires Window(block, start, m, i) && i >= 16
    ensures Rol1(Xor4(block[(i + 13) % 16], block[(i + 8) % 16], block[(i + 2) % 16], block[i % 16])) == W(m, i)
  {
    hide Rol1, Xor4;
    assert block[(i - 3) % 16] == W(m, i - 3);
    assert block[(i - 8) % 16] == W(m, i - 8);
    assert block[(i - 14) % 16] == W(m, i - 14);
    assert block[(i - 16) % 16] == W(m, i - 16);
  }

  /** blk0(i) or blk(i): fetch schedule word i. */
  method Fetch(block: array<Word32>, i: nat, ghost start: seq<Word32>, ghost m: seq<Word32>) returns (w: Word32)
    requires block.Length == 16 && Window(block[..], start, m, i)
    requires forall k :: 0 <= k < 16 ==> m[k] == Swap(start[k])
    modifies block
    ensures w == W(m, i) && Window(block[..], start, m, i + 1)
  {
    hide Swap, Rol1, Xor4, Window;
    ghost var before := block[..];
    WindowNext(before, start, m, i);
    if i < 16 {
      Unswapped(before, start, m, i);
      block[i] := Swap(block[i]);
    } else {
      CellsRead(before, start, m, i);
      block[i % 16] := Rol1(Xor4(block[(i + 13) % 16], block[(i + 8) % 16], block[(i + 2) % 16], block[i % 16]));
    }
    w := block[i % 16];
    assert block[..] == before[i % 16 := w];
  }

  lemma Unswapped(block: seq<Word32>, start: seq<Word32>, m: seq<Word32>, i: nat)
    requires Window(block, start, m, i) && i < 16
    ensures block[i] == start[i] && W(m, i) == m[i] && |m| == |start| == 16
  {
  }

  /** One of the macro calls R0 to R4. */
  method Round(r: array<Word32>, block: array<Word32>, i: nat, ghost start: seq<Word32>, ghost m: seq<Word32>,
      ghost s: Working)
    requires r.Length == 5 && block.Length == 16 && r != block
    requires Window(block[..], start, m, i) && Plays(r[..], s, i)
    requires forall k :: 0 <= k < 16 ==> m[k] == Swap(start[k])
    modifies r, block
    ensures Window(block[..], start, m, i + 1) && Plays(r[..], Turn(s, i, W(m, i)), i + 1)
  {
    hide Swap, MacroF, MacroK, MacroSum, Rol5, Rol30, F, K, Sum5, W, Window, Reg;
    ghost var before := r[..];
    var blk := Fetch(block, i, start, m);
    var f := MacroF(i, r[Reg(1, i)], r[Reg(2, i)], r[Reg(3, i)]);
    var z := MacroSum(r[Reg(4, i)], f, blk, MacroK(i), Rol5(r[Reg(0, i)]));
    MacroFIsF(i, s.b, s.c, s.d);
    MacroKIsK(i);
    MacroSumIsSum(s.e, f, blk, K(i), Rol5(s.a));
    PlaysNext(before, s, i, z, Rol30(s.b));
    RegsDistinct(4, 1, i);
    r[Reg(4, i)] := z;
    r[Reg(1, i)] := Rol30(r[Reg(1, i)]);
    assert r[..] == before[Reg(4, i) := z][Reg(1, i) := Rol30(s.b)];
  }

  function Swapped(block: seq<Word32>): (m: seq<Word32>)
    ensures |m| == |block|
  {
    seq(|block|, i requires 0 <= i < |block| => Swap(block[i]))
  }

  /** sha1_compress: one step of the hash computation on the byte-swapped block. */
  method Compress(state: array<Word32>, block: array<Word32>)
    requires state.Length == 5 && block.Length == 16 && state != block
    modifies state, block
    ensures state[..] == NextHash(Swapped(old(block[..])), old(state[..]))
  {
    hide Swap, Turn, W, Plus;
    ghost var h, start := state[..], block[..];
    ghost var m := Swapped(start);
    var r := new Word32[5];
    r[0], r[1], r[2], r[3], r[4] := state[0], state[1], state[2], state[3], state[4];
    assert Plays(r[..], Turns(m, h, 0), 0);
    var i := 0;
    while i < 80
      invariant i <= 80 && state[..] == h
      invariant Window(block[..], start, m, i)
      invariant Plays(r[..], Turns(m, h, i), i)
    {
      Round(r, block, i, start, m, Turns(m, h, i));
      i := i + 1;
    }
    AddUp(state, r, m, h);
  }

  method AddUp(state: array<Word32>, r: array<Word32>, ghost m: seq<Word32>, ghost h: seq<Word32>)
    requires state.Length == 5 && r.Length == 5 && state != r && |m| == 16 && state[..] == h
    requires Plays(r[..], Turns(m, h, 80), 80)
    modifies state
    ensures state[..] == NextHash(m, h)
  {
    hide Plus, Turns;
    state[0] := Plus(state[0], r[0]);
    state[1] := Plus(state[1], r[1]);
    state[2] := Plus(state[2], r[2]);
    state[3] := Plus(state[3], r[3]);
    state[4] := Plus(state[4], r[4]);
  }

  // ---------------------------------------------------------------- the message length

  const TWO32: nat := 0x1_0000_0000
  const TWO64: nat := 0x1_0000_0000_0000_0000

  /** The two counter words (low, high) after len more bytes: 64-bit len << 3, 32-bit counters. */
  function NextCount(low: nat, high: nat, len: nat): (r: (nat, nat))
    ensures r.0 < TWO32 && r.1 < TWO32
  {
    var shifted := 8 * len % TWO64;
    var low1 := (low + shifted) % TWO32;
    var high1 := if low1 < shifted then high + 1 else high;
    (low1, (high1 + len / 0x2000_0000) % TWO32)
  }

  /** When the low word really overflows. */
  predicate Carries(low: nat, len: nat) {
    low + 8 * len % TWO32 >= TWO32
  }

  /** The high word after adding len bytes to a 64-bit bit count. */
  lemma HighWord(low: nat, high: nat, len: nat)
    requires low < TWO32 && high < TWO32
    ensures var t := high * TWO32 + low + 8 * len;
      t % TWO32 == (low + 8 * len) % TWO32 &&
      t % TWO64 == (high + len / 0x2000_0000 + if Carries(low, len) then 1 else 0) % TWO32 * TWO32 + t % TWO32
  {
    var r := 8 * len % TWO32;
    ShiftedLength(len);
    var t := high * TWO32 + low + 8 * len;
    var hi := high + len / 0x2000_0000 + if Carries(low, len) then 1 else 0;
    var lo := if Carries(low, len) then low + r - TWO32 else low + r;
    assert t == hi * TWO32 + lo;
    SplitWords(hi, lo);
  }

  lemma ModIs(a: nat, q: nat, r: nat)
    requires a == q * TWO32 + r && r < TWO32
    ensures a % TWO32 == r
  {
  }

  lemma ShiftedLength(len: nat)
    ensures 8 * len % TWO32 == 8 * (len % 0x2000_0000)
    ensures 8 * len == len / 0x2000_0000 * TWO32 + 8 * len % TWO32
  {
    ModIs(8 * len, len / 0x2000_0000, 8 * (len % 0x2000_0000));
  }

  lemma SplitWords(hi: nat, lo: nat)
    requires lo < TWO32
    ensures (hi * TWO32 + lo) % TWO32 == lo
    ensures (hi * TWO32 + lo) % TWO64 == hi % TWO32 * TWO32 + lo
  {
    ModIs(hi * TWO32 + lo, hi, lo);
    var q, r := hi / TWO32, hi % TWO32;
    assert hi == q * TWO32 + r;
    ModIs64(hi * TWO32 + lo, q, r * TWO32 + lo);
  }

  lemma ModIs64(a: nat, q: nat, r: nat)
    requires a == q * TWO64 + r && r < TWO64
    ensures a % TWO64 == r
  {
  }

  lemma CodeCarry(low: nat, len: nat)
    requires low < TWO32
    ensures var shifted := 8 * len % TWO64;
      && (low + shifted) % TWO32 == (low + 8 * len) % TWO32
      && ((low + shifted) % TWO32 < shifted <==> Carries(low, len) || shifted >= TWO32)
  {
    SmallerMod(8 * len);
    var shifted, r := 8 * len % TWO64, 8 * len % TWO32;
    LowSum(low, shifted);
    LowSum(low, 8 * len);
  }

  lemma LowSum(low: nat, n: nat)
    requires low < TWO32
    ensures (low + n) % TWO32 == if low + n % TWO32 >= TWO32 then low + n % TWO32 - TWO32 else low + n % TWO32
  {
  }

  /** The test for the carry compares a 32-bit sum with a 64-bit shift, so the count is right
      exactly when the shift fits into 32 bits or there is a carry anyway. */
  lemma NextCountExact(low: nat, high: nat, len: nat)
    requires low < TWO32 && high < TWO32
    ensures var (l, h) := NextCount(low, high, len);
      (h * TWO32 + l == (high * TWO32 + low + 8 * len) % TWO64) ==
      (8 * len % TWO64 < TWO32 || Carries(low, len))
  {
    hide Carries;
    HighWord(low, high, len);
    CodeCarry(low, len);
    OneMore(high + len / 0x2000_0000);
    SmallerMod(high * TWO32 + low + 8 * len);
  }

  lemma SmallerMod(n: nat)
    ensures n % TWO64 % TWO32 == n % TWO32
  {
    assert n == n / TWO64 * TWO64 + n % TWO64;
  }

  lemma OneMore(n: nat)
    ensures n % TWO32 != (n + 1) % TWO32
  {
  }

  // ---------------------------------------------------------------- struct sha1_t

  class Context {
    var state: array<Word32>
    var low: nat
    var high: nat
    var buffer: array<Byte>
    /** The bytes hashed since the last Init. */
    ghost var history: Bytes

    ghost predicate Shape()
      reads this
    {
      state.Length == 5 && buffer.Length == 64 && low < TWO32 && high < TWO32
    }

    /** Whole blocks are compressed, the rest is buffered, and the low word counts bits. */
    ghost predicate Valid()
      reads this, state, buffer
    {
      && Shape()
      && low == 8 * |history| % TWO32
      && Absorb(H0, history) == (state[..], buffer[..|history| % 64])
    }

    /** The 64-bit count is the length of what was hashed, modulo 2^64 bits. */
    ghost predicate Counted()
      reads this
    {
      high * TWO32 + low == 8 * |history| % TWO64
    }

    constructor ()
      ensures Shape() && fresh(state) && fresh(buffer)
    {
      state := new Word32[5];
      buffer := new Byte[64];
      low, high := 0, 0;
    }

    /** sha1_init */
    method Init()
      requires Shape()
      modifies this, state
      ensures state == old(state) && buffer == old(buffer)
      ensures Valid() && Counted() && history == []
    {
      state[0], state[1], state[2], state[3], state[4] := 0x67452301, 0xefcdab89, 0x98badcfe, 0x10325476, 0xc3d2e1f0;
      low, high := 0, 0;
      history := [];
      assert state[..] == H0;
    }

    /** The reinterpretation of the buffer as words around sha1_compress. */
    method CompressBuffer()
      requires Shape()
      modifies state, buffer
      ensures state[..] == NextHash(BigWords(old(buffer[..])), old(state[..]))
    {
      hide NextHash, Get32l, Get32b, Swap;
      ghost var bytes := buffer[..];
      var block := new Word32[16];
      var i := 0;
      while i < 16
        invariant i <= 16 && buffer[..] == bytes && state[..] == old(state[..])
        invariant forall k :: 0 <= k < i ==> Swap(block[k]) == BigWords(bytes)[k]
      {
        block[i] := Get32l(buffer[4 * i..4 * i + 4]);
        SwapLoads(buffer[4 * i..4 * i + 4]);
        i := i + 1;
      }
      assert Swapped(block[..]) == BigWords(bytes);
      Compress(state, block);
      StoreBlock(block);
    }

    /** The buffer is the block: the schedule words overwrite it. */
    method StoreBlock(block: array<Word32>)
      requires Shape() && block.Length == 16
      modifies buffer
    {
      hide Put32l;
      var i := 0;
      while i < 16
      {
        CopyInto(buffer, 4 * i, Put32l(block[i]));
        i := i + 1;
      }
    }

    /** sha1_update */
    method Update(input: Bytes)
      requires Valid()
      modifies this, state, buffer
      ensures state == old(state) && buffer == old(buffer)
      ensures Valid() && history == old(history) + input
      ensures old(Counted()) ==>
        Counted() == (8 * |input| % TWO64 < TWO32 || Carries(old(low), |input|))
    {
      hide Absorb, Carries, NextCount;
      ghost var len := |history|;
      BufferedCount(len);
      AbsorbAppend(H0, history, input);
      NextCountExact(low, high, |input|);
      CountStep(low, high, len, |input|);
      var j := low / 8 % 64;
      var count := NextCount(low, high, |input|);
      low, high := count.0, count.1;
      TakeBytes(input, j);
      history := history + input;
      SizeLeft(history);
    }

    /** The part of sha1_update that moves bytes. */
    method TakeBytes(input: Bytes, start: nat)
      requires Shape() && start < 64
      modifies state, buffer
      ensures var r := Absorb(old(state[..]), old(buffer[..start]) + input);
        |r.1| < 64 && r == (state[..], buffer[..|r.1|])
    {
      hide Absorb;
      var i := Blocks(input, start);
      var j := if i > 0 then 0 else start;
      ghost var kept := buffer[..j];
      assert kept == if i > 0 then [] else old(buffer[..start]);
      CopyInto(buffer, j, input[i..]);
      assert buffer[..j + |input[i..]|] == kept + input[i..];
      AbsorbShort(state[..], kept + input[i..]);
    }

    static lemma SizeLeft(h: Bytes)
      ensures |Absorb(H0, h).1| == |h| % 64
    {
      hide Absorb;
    }

    static lemma AbsorbShort(h: seq<Word32>, m: Bytes)
      requires |h| == 5 && |m| < 64
      ensures Absorb(h, m) == (h, m)
    {
    }

    static lemma BufferedCount(n: nat)
      ensures 8 * n % TWO32 / 8 % 64 == n % 64
    {
      ShiftedLength(n);
      var q, r := n / 0x2000_0000, n % 0x2000_0000;
      assert 8 * n % TWO32 == 8 * r;
      assert 8 * r / 8 == r;
      SameMod64(n, q * 0x80_0000, r);
    }

    static lemma SameMod64(n: nat, m: nat, r: nat)
      requires n == 64 * m + r
      ensures n % 64 == r % 64
    {
      assert n == 64 * (m + r / 64) + r % 64;
    }

    /** Adding to a right count. */
    static lemma CountStep(low: nat, high: nat, len: nat, more: nat)
      requires low == 8 * len % TWO32 && high < TWO32
      ensures NextCount(low, high, more).0 == 8 * (len + more) % TWO32
      ensures high * TWO32 + low == 8 * len % TWO64 ==>
        (high * TWO32 + low + 8 * more) % TWO64 == 8 * (len + more) % TWO64
    {
      hide Carries;
      CodeCarry(low, more);
      AddMod32(8 * len, 8 * more);
      AddMod64(8 * len, 8 * more);
    }

    static lemma AddMod32(a: nat, b: nat)
      ensures (a % TWO32 + b) % TWO32 == (a + b) % TWO32
    {
    }

    static lemma AddMod64(a: nat, b: nat)
      ensures (a % TWO64 + b) % TWO64 == (a + b) % TWO64
    {
    }

    /** The copying and compressing in the middle of sha1_update; returns the bytes consumed. */
    method Blocks(input: Bytes, j: nat) returns (i: nat)
      requires Shape() && j < 64
      modifies state, buffer
      ensures i <= |input| && (i == 0 <==> j + |input| < 64)
      ensures if i > 0 then |input| - i < 64 else buffer[..] == old(buffer[..])
      ensures Absorb(old(state[..]), old(buffer[..j]) + input) ==
              Absorb(state[..], (if i > 0 then [] else old(buffer[..j])) + input[i..])
    {
      hide Absorb, NextHash, BigWords;
      ghost var h, kept := state[..], buffer[..j];
      if j + |input| > 63 {
        i := 64 - j;
        CopyInto(buffer, j, input[..i]);
        assert buffer[..] == kept + input[..i];
        AbsorbBlock(h, kept, input, i);
        CompressBuffer();
        while i + 63 < |input|
          invariant 0 < i <= |input|
          invariant Absorb(h, kept + input) == Absorb(state[..], input[i..])
        {
          CopyInto(buffer, 0, input[i..i + 64]);
          assert buffer[..] == input[i..i + 64];
          AbsorbBlock(state[..], [], input[i..], 64);
          assert [] + input[i..] == input[i..];
          assert [] + input[i..][..64] == input[i..i + 64];
          assert input[i..][64..] == input[i + 64..];
          CompressBuffer();
          i := i + 64;
        }
        assert [] + input[i..] == input[i..];
      } else {
        i := 0;
        assert input[0..] == input;
      }
    }

    static lemma AbsorbBlock(h: seq<Word32>, kept: Bytes, input: Bytes, i: nat)
      requires |h| == 5 && i <= |input| && |kept| + i == 64
      ensures Absorb(h, kept + input) == Absorb(NextHash(BigWords(kept + input[..i]), h), input[i..])
    {
      hide NextHash, BigWords;
      assert (kept + input)[..64] == kept + input[..i];
      assert (kept + input)[64..] == input[i..];
    }

    /** sha1_final: the length field is whatever the two counter words hold. */
    method Final() returns (digest: Bytes)
      requires Valid()
      modifies this, state, buffer
      ensures state == old(state) && buffer == old(buffer) && Shape()
      ensures digest == Output(Absorb(H0, Padded(old(history), old(high * TWO32 + low))).0)
      ensures old(Counted()) ==> digest == Sha1Spec.Sha1(old(history))
    {
      hide Absorb, Output, Padded, PadZeros, BeBytes, Carries, Counted, Zeros, Sha1Spec.Sha1;
      var finalcount := BeBytes(high, 4) + BeBytes(low, 4);
      LengthField(high, low);
      ghost var message, bits := history, high * TWO32 + low;
      CountedDigest(message);
      PadLoop();
      Update(finalcount);
      PaddedIs(message, bits);
      assert history == Padded(message, bits);
      digest := Output(state[..]);
    }

    lemma CountedDigest(m: Bytes)
      requires m == history
      ensures Counted() ==> Sha1Spec.Sha1(m) == Output(Absorb(H0, Padded(m, high * TWO32 + low)).0)
    {
      hide Absorb, Output, Padded;
    }

    /** The padding loop stops at the first block boundary that leaves room for the length. */
    method PadLoop()
      requires Valid()
      modifies this, state, buffer
      ensures state == old(state) && buffer == old(buffer) && Valid()
      ensures history == old(history) + [0x80] + Zeros(PadZeros(|old(history)|))
    {
      hide Absorb, Carries;
      ghost var k := 0;
      ghost var n := |history|;
      ghost var start := history + [0x80];
      Update([0x80]);
      assert start + Zeros(0) == start;
      BufferedCount(|history|);
      while low / 8 % 64 * 8 != 448
        invariant state == old(state) && buffer == old(buffer) && Valid()
        invariant k <= PadZeros(n) && history == start + Zeros(k) && low / 8 % 64 == (n + 1 + k) % 64
        decreases PadZeros(n) - k
      {
        NotYet(n, k);
        Update([0x00]);
        assert start + Zeros(k) + [0x00] == start + Zeros(k + 1);
        k := k + 1;
        BufferedCount(|history|);
      }
      NotYet(n, k);
    }

    /** The hash API: one init, any number of updates below 2^29 bytes each, one final. */
    method Hash(pieces: seq<Bytes>) returns (digest: Bytes)
      requires Shape() && forall k :: 0 <= k < |pieces| ==> |pieces[k]| < 0x2000_0000
      modifies this, state, buffer
      ensures digest == Sha1Spec.Sha1(Concat(pieces))
    {
      hide Sha1Spec.Sha1, Valid, Counted, Carries, Output, Padded, Absorb;
      Init();
      var i := 0;
      while i < |pieces|
        invariant i <= |pieces|
        invariant Valid() && Counted() && history == Concat(pieces[..i])
        invariant state == old(state) && buffer == old(buffer)
      {
        Update(pieces[i]);
        assert pieces[..i + 1][..i] == pieces[..i];
        i := i + 1;
      }
      assert pieces[..i] == pieces;
      digest := Final();
    }

    static lemma NotYet(n: nat, k: nat)
      requires k <= PadZeros(n)
      ensures (n + 1 + k) % 64 == 56 <==> k == PadZeros(n)
    {
    }

    static lemma PaddedIs(m: Bytes, bits: nat)
      ensures m + [0x80] + Zeros(PadZeros(|m|)) + BeBytes(bits, 8) == Padded(m, bits)
    {
    }
  }

  /** The two counter words spelled one after the other are the 64-bit count. */
  lemma LengthField(high: nat, low: nat)
    requires low < TWO32
    ensures BeBytes(high, 4) + BeBytes(low, 4) == BeBytes(high * TWO32 + low, 8)
  {
    BeJoin(high, low, 4);
  }

  function Two(k: nat): nat {
    if k == 0 then 1 else 256 * Two(k - 1)
  }

  lemma {:induction false} BeJoin(high: nat, low: nat, k: nat)
    requires k <= 4 && low < Two(k)
    ensures BeBytes(high, 4) + BeBytes(low, k) == BeBytes(high * Two(k) + low, 4 + k)
  {
    hide ByteOf;
    if k == 0 {
      assert BeBytes(high, 4) + [] == BeBytes(high, 4);
    } else {
      var t := high * Two(k) + low;
      Digit(high, low, Two(k - 1));
      BeJoin(high, low / 256, k - 1);
    }
  }

  lemma Digit(high: nat, low: nat, p: nat)
    ensures (high * (256 * p) + low) % 256 == low % 256
    ensures (high * (256 * p) + low) / 256 == high * p + low / 256
  {
    var q := high * p;
    assert high * (256 * p) == 256 * q;
  }
}
