// SHA-1 as sections 5.1.1 and 6.1.2 of FIPS 180-4 define it, and its incremental form.

module Sha1Spec {
  import opened Octets
  import opened Bytes
  import opened Words32

  // ---------------------------------------------------------------- the compression function

  function Rol1(w: Word32): Word32 {
    (w << 1) | (w >> 31)
  }

  function Rol5(w: Word32): Word32 {
    (w << 5) | (w >> 27)
  }

  function Rol30(w: Word32): Word32 {
    (w << 30) | (w >> 2)
  }

  function Ch(x: Word32, y: Word32, z: Word32): Word32 {
    (x & y) ^ (!x & z)
  }

  function Parity(x: Word32, y: Word32, z: Word32): Word32 {
    x ^ y ^ z
  }

  function Maj(x: Word32, y: Word32, z: Word32): Word32 {
    (x & y) ^ (x & z) ^ (y & z)
  }

  function F(t: nat, x: Word32, y: Word32, z: Word32): Word32 {
    if t < 20 then Ch(x, y, z) else if t < 40 then Parity(x, y, z) else if t < 60 then Maj(x, y, z) else Parity(x, y, z)
  }

  function K(t: nat): Word32 {
    if t < 20 then 0x5a827999 else if t < 40 then 0x6ed9eba1 else if t < 60 then 0x8f1bbcdc else 0xca62c1d6
  }

  /** The number under the square root in K. */
  function Radicand(t: nat): nat {
    if t < 20 then 2 else if t < 40 then 3 else if t < 60 then 5 else 10
  }

  /** The constants are the square roots of 2, 3, 5 and 10, cut after 30 binary places. */
  lemma KIsRoot(t: nat)
    ensures var k := K(t) as int; k * k <= Radicand(t) * 0x1000_0000_0000_0000 < (k + 1) * (k + 1)
  {
  }

  /** Turning by 5 and by 30 is turning by 1 again and again. */
  lemma RolTurns(w: Word32)
    ensures Rol5(w) == Rol1(Rol1(Rol1(Rol1(Rol1(w)))))
    ensures Rol1(Rol1(Rol30(w))) == w
  {
  }

  function Xor4(a: Word32, b: Word32, c: Word32, d: Word32): Word32 {
    a ^ b ^ c ^ d
  }

  function Sum5(a: Word32, b: Word32, c: Word32, d: Word32, e: Word32): Word32 {
    a + b + c + d + e
  }

  function Plus(a: Word32, b: Word32): Word32 {
    a + b
  }

  /** The message schedule W. */
  function W(m: seq<Word32>, t: nat): Word32
    requires |m| == 16
  {
    if t < 16 then m[t] else Rol1(Xor4(W(m, t - 3), W(m, t - 8), W(m, t - 14), W(m, t - 16)))
  }

  /** The working variables a, b, c, d, e. */
  datatype Working = Working(a: Word32, b: Word32, c: Word32, d: Word32, e: Word32)

  function Turn(s: Working, t: nat, w: Word32): Working {
    Working(Sum5(Rol5(s.a), F(t, s.b, s.c, s.d), s.e, K(t), w), s.a, Rol30(s.b), s.c, s.d)
  }

  function Turns(m: seq<Word32>, h: seq<Word32>, t: nat): Working
    requires |m| == 16 && |h| == 5
  {
    if t == 0 then Working(h[0], h[1], h[2], h[3], h[4]) else Turn(Turns(m, h, t - 1), t - 1, W(m, t - 1))
  }

  function NextHash(m: seq<Word32>, h: seq<Word32>): (r: seq<Word32>)
    requires |m| == 16 && |h| == 5
    ensures |r| == 5
  {
    var s := Turns(m, h, 80);
    [Plus(h[0], s.a), Plus(h[1], s.b), Plus(h[2], s.c), Plus(h[3], s.d), Plus(h[4], s.e)]
  }

  // ---------------------------------------------------------------- bytes and words

  function BigWords(block: Bytes): (m: seq<Word32>)
    requires |block| == 64
    ensures |m| == 16
  {
    seq(16, i requires 0 <= i < 16 => Get32b(block[4 * i..4 * i + 4]))
  }

  /** The k low-order bytes of n, most significant first. */
  function BeBytes(n: nat, k: nat): (s: Bytes)
    ensures |s| == k
  {
    if k == 0 then [] else BeBytes(n / 256, k - 1) + [ByteOf(n % 256)]
  }

  // ---------------------------------------------------------------- messages

  const H0: seq<Word32> := [0x67452301, 0xefcdab89, 0x98badcfe, 0x10325476, 0xc3d2e1f0]

  /** The hash value after all whole blocks of m, and the bytes left over. */
  function Absorb(h: seq<Word32>, m: Bytes): (r: (seq<Word32>, Bytes))
    requires |h| == 5
    ensures |r.0| == 5 && |r.1| < 64 && |r.1| == |m| % 64
    decreases |m|
  {
    if |m| >= 64 then Absorb(NextHash(BigWords(m[..64]), h), m[64..]) else (h, m)
  }

  /** The number of zero bytes after the bit 1 (section 5.1.1). */
  function PadZeros(n: nat): (k: nat)
    ensures k < 64 && (n + 1 + k) % 64 == 56
  {
    (119 - n % 64) % 64
  }

  /** m padded, with a given number in the length field. */
  function Padded(m: Bytes, bits: nat): (p: Bytes)
    ensures |p| % 64 == 0
  {
    m + [0x80] + Zeros(PadZeros(|m|)) + BeBytes(bits, 8)
  }

  function Output(h: seq<Word32>): Bytes {
    if h == [] then [] else Put32b(h[0]) + Output(h[1..])
  }

  /** SHA-1 of a message; the length field holds 64 bits. */
  function Sha1(m: Bytes): Bytes {
    Output(Absorb(H0, Padded(m, 8 * |m| % 0x1_0000_0000_0000_0000)).0)
  }

  /** Absorbing can be interrupted anywhere. */
  lemma {:induction false} AbsorbAppend(h: seq<Word32>, m: Bytes, n: Bytes)
    requires |h| == 5
    ensures var (g, rest) := Absorb(h, m);
      Absorb(h, m + n) == Absorb(g, rest + n)
    decreases |m|
  {
    hide NextHash, BigWords;
    if |m| >= 64 {
      AbsorbAppend(NextHash(BigWords(m[..64]), h), m[64..], n);
      assert (m + n)[..64] == m[..64];
      assert (m + n)[64..] == m[64..] + n;
    }
  }
}
