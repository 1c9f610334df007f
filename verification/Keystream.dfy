// What a byte stream over OFB or CTR promises: one keystream, fixed by key and nonce, read at a
// running byte position.

module Keystream {
  import opened Bytes
  import opened Words
  import opened BlockModes

  /** The IV after k blocks; in the keystream modes it never depends on the data. */
  function KsIv(c: Cipher, m: Mode, nonce: Bytes, k: nat): (r: Bytes)
    requires c.Valid() && KeystreamPrecomputable(m) && |nonce| == c.size
    ensures |r| == c.size
  {
    if k == 0 then nonce
    else if m.CTR? then CtrAdd(KsIv(c, m, nonce, k - 1), 1)
    else c.enc(KsIv(c, m, nonce, k - 1))
  }

  function KsBlock(c: Cipher, m: Mode, nonce: Bytes, k: nat): (r: Bytes)
    requires c.Valid() && KeystreamPrecomputable(m) && |nonce| == c.size
    ensures |r| == c.size
  {
    c.enc(KsIv(c, m, nonce, k))
  }

  /** Byte p of the keystream that begins with block k. */
  function KsFrom(c: Cipher, m: Mode, nonce: Bytes, k: nat, p: nat): Byte
    requires c.Valid() && KeystreamPrecomputable(m) && |nonce| == c.size
    decreases p
  {
    if p < c.size then KsBlock(c, m, nonce, k)[p] else KsFrom(c, m, nonce, k + 1, p - c.size)
  }

  /** Byte p of the keystream. */
  function KsByte(c: Cipher, m: Mode, nonce: Bytes, p: nat): Byte
    requires c.Valid() && KeystreamPrecomputable(m) && |nonce| == c.size
  {
    KsFrom(c, m, nonce, 0, p)
  }

  /** The stream cipher: data xored with the keystream from position p on. */
  function Crypt(c: Cipher, m: Mode, nonce: Bytes, p: nat, data: Bytes): (r: Bytes)
    requires c.Valid() && KeystreamPrecomputable(m) && |nonce| == c.size
    ensures |r| == |data|
  {
    seq(|data|, j requires 0 <= j < |data| => Xor8(KsByte(c, m, nonce, p + j), data[j]))
  }

  // ---------------------------------------------------------------- laws of the stream

  lemma CryptSplit(c: Cipher, m: Mode, nonce: Bytes, p: nat, a: Bytes, b: Bytes)
    requires c.Valid() && KeystreamPrecomputable(m) && |nonce| == c.size
    ensures Crypt(c, m, nonce, p, a + b) == Crypt(c, m, nonce, p, a) + Crypt(c, m, nonce, p + |a|, b)
  {
    hide Cipher.Valid, KsByte, Xor8;
    var l, r := Crypt(c, m, nonce, p, a + b), Crypt(c, m, nonce, p, a) + Crypt(c, m, nonce, p + |a|, b);
    forall j | 0 <= j < |l| ensures l[j] == r[j] {
      if j >= |a| {
        assert p + j == (p + |a|) + (j - |a|);
      }
    }
  }

  /** The outputs of a list of update calls, each at the position the one before left. */
  function CallsCrypt(c: Cipher, m: Mode, nonce: Bytes, p: nat, calls: seq<Bytes>): Bytes
    requires c.Valid() && KeystreamPrecomputable(m) && |nonce| == c.size
    decreases |calls|
  {
    if calls == [] then []
    else Crypt(c, m, nonce, p, calls[0]) + CallsCrypt(c, m, nonce, p + |calls[0]|, calls[1..])
  }

  /** However a message is cut into calls, the result is that of one call on the whole of it. */
  lemma {:induction false} ChunkingIrrelevant(c: Cipher, m: Mode, nonce: Bytes, p: nat, calls: seq<Bytes>)
    requires c.Valid() && KeystreamPrecomputable(m) && |nonce| == c.size
    ensures CallsCrypt(c, m, nonce, p, calls) == Crypt(c, m, nonce, p, Flatten(calls))
    decreases |calls|
  {
    hide Cipher.Valid, Crypt;
    if calls == [] {
      assert Crypt(c, m, nonce, p, []) == [];
    } else {
      ChunkingIrrelevant(c, m, nonce, p + |calls[0]|, calls[1..]);
      CryptSplit(c, m, nonce, p, calls[0], Flatten(calls[1..]));
    }
  }

  /** A second pass at the same position restores the data. */
  lemma CryptTwice(c: Cipher, m: Mode, nonce: Bytes, p: nat, data: Bytes)
    requires c.Valid() && KeystreamPrecomputable(m) && |nonce| == c.size
    ensures Crypt(c, m, nonce, p, Crypt(c, m, nonce, p, data)) == data
  {
    hide Cipher.Valid, KsByte, Xor8;
    var once := Crypt(c, m, nonce, p, data);
    forall j | 0 <= j < |data| ensures Crypt(c, m, nonce, p, once)[j] == data[j] {
      Xor8Laws(KsByte(c, m, nonce, p + j), data[j]);
    }
  }

  /** Encrypting in one set of chunks and decrypting in any other gives the message back. */
  lemma ChunkedRoundTrip(c: Cipher, m: Mode, nonce: Bytes, outward: seq<Bytes>, back: seq<Bytes>)
    requires c.Valid() && KeystreamPrecomputable(m) && |nonce| == c.size
    requires Flatten(back) == CallsCrypt(c, m, nonce, 0, outward)
    ensures CallsCrypt(c, m, nonce, 0, back) == Flatten(outward)
  {
    hide Cipher.Valid, Crypt;
    ChunkingIrrelevant(c, m, nonce, 0, outward);
    ChunkingIrrelevant(c, m, nonce, 0, back);
    CryptTwice(c, m, nonce, 0, Flatten(outward));
  }

  // ---------------------------------------------------------------- runs of whole blocks

  lemma {:induction false} IvAtIsKsIv(c: Cipher, m: Mode, nonce: Bytes, q: nat, xs: seq<Bytes>, k: nat)
    requires c.Valid() && KeystreamPrecomputable(m) && |nonce| == c.size && Blocks(c, xs) && k <= |xs|
    ensures IvAt(c, m, Encrypt, KsIv(c, m, nonce, q), xs, k) == KsIv(c, m, nonce, q + k)
  {
    hide Cipher.Valid, CtrAdd;
    if k > 0 {
      IvAtIsKsIv(c, m, nonce, q, xs, k - 1);
    }
  }

  /** The blocks ys are the blocks xs xored with consecutive keystream blocks from block q on. */
  ghost predicate Xored(c: Cipher, m: Mode, nonce: Bytes, q: nat, xs: seq<Bytes>, ys: seq<Bytes>)
    requires c.Valid() && KeystreamPrecomputable(m) && |nonce| == c.size && Blocks(c, xs)
  {
    |ys| == |xs| && forall k :: 0 <= k < |xs| ==> ys[k] == Xor(KsBlock(c, m, nonce, q + k), xs[k])
  }

  /** A run over whole blocks from block q on. */
  lemma RunIsKeystream(c: Cipher, m: Mode, nonce: Bytes, q: nat, xs: seq<Bytes>)
    requires c.Valid() && KeystreamPrecomputable(m) && |nonce| == c.size && Blocks(c, xs)
    ensures RunIv(c, m, Encrypt, KsIv(c, m, nonce, q), xs) == KsIv(c, m, nonce, q + |xs|)
    ensures Xored(c, m, nonce, q, xs, RunOut(c, m, Encrypt, KsIv(c, m, nonce, q), xs))
  {
    hide Cipher.Valid, KsIv, IvAt;
    IvAtIsKsIv(c, m, nonce, q, xs, |xs|);
    forall k | 0 <= k < |xs|
      ensures RunOut(c, m, Encrypt, KsIv(c, m, nonce, q), xs)[k] == Xor(KsBlock(c, m, nonce, q + k), xs[k])
    {
      IvAtIsKsIv(c, m, nonce, q, xs, k);
    }
  }

  // ---------------------------------------------------------------- bytes and blocks

  /** The blocks of a byte string whose length is n blocks. */
  function BlocksOf(s: Bytes, n: nat, size: nat): (r: seq<Bytes>)
    requires |s| == Times(n, size)
    ensures |r| == n && forall k :: 0 <= k < n ==> |r[k]| == size
  {
    if n == 0 then [] else [s[..size]] + BlocksOf(s[size..], n - 1, size)
  }

  function Join(xs: seq<Bytes>): Bytes {
    if xs == [] then [] else xs[0] + Join(xs[1..])
  }

  lemma {:induction false} KsFromSkips(c: Cipher, m: Mode, nonce: Bytes, k: nat, q: nat, j: nat)
    requires c.Valid() && KeystreamPrecomputable(m) && |nonce| == c.size && j < c.size
    ensures KsFrom(c, m, nonce, k, Times(q, c.size) + j) == KsBlock(c, m, nonce, k + q)[j]
    decreases q
  {
    hide Cipher.Valid, KsBlock;
    if q > 0 {
      KsFromSkips(c, m, nonce, k + 1, q - 1, j);
      assert k + 1 + (q - 1) == k + q;
    }
  }

  /** Xoring block by block with consecutive keystream blocks is xoring the bytes. */
  lemma XoredRest(c: Cipher, m: Mode, nonce: Bytes, q: nat, xs: seq<Bytes>, ys: seq<Bytes>)
    requires c.Valid() && KeystreamPrecomputable(m) && |nonce| == c.size && Blocks(c, xs) && |xs| > 0
    requires Xored(c, m, nonce, q, xs, ys)
    ensures Blocks(c, xs[1..]) && Xored(c, m, nonce, q + 1, xs[1..], ys[1..])
    ensures ys[0] == Xor(KsBlock(c, m, nonce, q), xs[0])
  {
    hide Cipher.Valid, KsBlock;
    forall k | 0 <= k < |xs| - 1
      ensures ys[1..][k] == Xor(KsBlock(c, m, nonce, q + 1 + k), xs[1..][k])
    {
      assert q + 1 + k == q + (k + 1);
      assert ys[1..][k] == ys[k + 1];
    }
    assert q + 0 == q;
  }

  lemma BlocksOfStep(s: Bytes, n: nat, size: nat)
    requires n > 0 && |s| == Times(n, size)
    ensures BlocksOf(s, n, size)[0] == s[..size]
    ensures BlocksOf(s, n, size)[1..] == BlocksOf(s[size..], n - 1, size)
  {
  }

  lemma {:induction false} JoinIsCrypt(c: Cipher, m: Mode, nonce: Bytes, q: nat, s: Bytes, n: nat, ys: seq<Bytes>)
    requires c.Valid() && KeystreamPrecomputable(m) && |nonce| == c.size
    requires |s| == Times(n, c.size) && Xored(c, m, nonce, q, BlocksOf(s, n, c.size), ys)
    ensures Join(ys) == Crypt(c, m, nonce, Times(q, c.size), s)
    decreases n
  {
    hide Cipher.Valid, KsBlock, Crypt, Xor8, Xored, Xor, BlocksOf;
    if n == 0 {
      assert |ys| == 0 by { XoredLength(c, m, nonce, q, BlocksOf(s, n, c.size), ys); }
      assert Crypt(c, m, nonce, Times(q, c.size), []) == [];
    } else {
      var head, rest := s[..c.size], s[c.size..];
      XoredLength(c, m, nonce, q, BlocksOf(s, n, c.size), ys);
      XoredRest(c, m, nonce, q, BlocksOf(s, n, c.size), ys);
      BlocksOfStep(s, n, c.size);
      JoinIsCrypt(c, m, nonce, q + 1, rest, n - 1, ys[1..]);
      BlockIsCrypt(c, m, nonce, q, head);
      CryptSplit(c, m, nonce, Times(q, c.size), head, rest);
      assert s == head + rest;
    }
  }

  lemma XoredLength(c: Cipher, m: Mode, nonce: Bytes, q: nat, xs: seq<Bytes>, ys: seq<Bytes>)
    requires c.Valid() && KeystreamPrecomputable(m) && |nonce| == c.size && Blocks(c, xs)
    requires Xored(c, m, nonce, q, xs, ys)
    ensures |ys| == |xs|
  {
  }

  /** Bytes r to r + |data| of a block xored with keystream block q. */
  lemma SliceIsCrypt(c: Cipher, m: Mode, nonce: Bytes, q: nat, x: Bytes, r: nat, data: Bytes)
    requires c.Valid() && KeystreamPrecomputable(m) && |nonce| == c.size && |x| == c.size
    requires r + |data| <= c.size && x[r..r + |data|] == data
    ensures Xor(KsBlock(c, m, nonce, q), x)[r..r + |data|] == Crypt(c, m, nonce, Times(q, c.size) + r, data)
  {
    hide Cipher.Valid, KsBlock, KsFrom, Times, Xor8;
    var slice := Xor(KsBlock(c, m, nonce, q), x)[r..r + |data|];
    forall j | 0 <= j < |data|
      ensures slice[j] == Crypt(c, m, nonce, Times(q, c.size) + r, data)[j]
    {
      KsFromSkips(c, m, nonce, 0, q, r + j);
      assert x[r + j] == x[r..r + |data|][j];
    }
  }

  lemma BlockIsCrypt(c: Cipher, m: Mode, nonce: Bytes, q: nat, x: Bytes)
    requires c.Valid() && KeystreamPrecomputable(m) && |nonce| == c.size && |x| == c.size
    ensures Xor(KsBlock(c, m, nonce, q), x) == Crypt(c, m, nonce, Times(q, c.size), x)
  {
    hide Cipher.Valid, KsBlock, KsFrom, Crypt, Times, Xor8;
    assert x[0..0 + |x|] == x;
    SliceIsCrypt(c, m, nonce, q, x, 0, x);
    assert Xor(KsBlock(c, m, nonce, q), x)[0..0 + |x|] == Xor(KsBlock(c, m, nonce, q), x);
  }

  // ---------------------------------------------------------------- single bytes

  /** Byte n is byte r of block k when n == k * size + r. */
  lemma KsByteIs(c: Cipher, m: Mode, nonce: Bytes, n: nat, k: nat, r: nat)
    requires c.Valid() && KeystreamPrecomputable(m) && |nonce| == c.size && r < c.size && n == k * c.size + r
    ensures KsByte(c, m, nonce, n) == KsBlock(c, m, nonce, k)[r]
  {
    hide Cipher.Valid, KsFrom, KsBlock;
    TimesIsProduct(k, c.size);
    KsFromSkips(c, m, nonce, 0, k, r);
  }

  lemma {:induction false} KsIvCtr(c: Cipher, nonce: Bytes, k: nat)
    requires c.Valid() && |nonce| == c.size
    ensures KsIv(c, CTR, nonce, k) == CtrAdd(nonce, k)
  {
    hide CtrAdd;
    CtrAddZero(nonce);
    if k > 0 {
      KsIvCtr(c, nonce, k - 1);
      CtrAddSum(nonce, k - 1, 1);
    }
  }

  lemma {:induction false} KsIvOfb(c: Cipher, nonce: Bytes, k: nat)
    requires c.Valid() && |nonce| == c.size
    ensures KsIv(c, OFB, nonce, k) == Repeated(c, nonce, k)
  {
    if k > 0 {
      KsIvOfb(c, nonce, k - 1);
    }
  }

  /** CTR: byte r of block k of the stream is xored with byte r of the encryption of t, the nonce
      whose last eight bytes, a little-endian number, are advanced by k. */
  lemma CryptCtr(c: Cipher, nonce: Bytes, p: nat, data: Bytes, j: nat, k: nat, r: nat, t: Bytes)
    requires c.Valid() && |nonce| == c.size == |t| && j < |data| && r < c.size && p + j == k * c.size + r
    requires t[..c.size - 8] == nonce[..c.size - 8]
    requires LeValue(t[c.size - 8..]) == (LeValue(nonce[c.size - 8..]) + k) % TWO64
    ensures Crypt(c, CTR, nonce, p, data)[j] == Xor8(c.enc(t)[r], data[j])
  {
    hide CtrAdd, LeValue, Xor8, KsByte, KsIv;
    KsByteIs(c, CTR, nonce, p + j, k, r);
    KsIvCtr(c, nonce, k);
    CtrAddNumber(nonce, k);
    SameCounter(CtrAdd(nonce, k), t, c.size);
  }

  lemma SameCounter(a: Bytes, b: Bytes, size: nat)
    requires |a| == |b| == size >= 8 && a[..size - 8] == b[..size - 8]
    requires LeValue(a[size - 8..]) == LeValue(b[size - 8..])
    ensures a == b
  {
    hide LeValue;
    SameNumber(a[size - 8..], b[size - 8..]);
    assert a == a[..size - 8] + a[size - 8..] && b == b[..size - 8] + b[size - 8..];
  }

  /** OFB: it is xored with byte r of the nonce encrypted k + 1 times. */
  lemma CryptOfb(c: Cipher, nonce: Bytes, p: nat, data: Bytes, j: nat, k: nat, r: nat)
    requires c.Valid() && |nonce| == c.size && j < |data| && r < c.size && p + j == k * c.size + r
    ensures Crypt(c, OFB, nonce, p, data)[j] == Xor8(Repeated(c, nonce, k + 1)[r], data[j])
  {
    hide Xor8, KsByte, KsIv;
    KsByteIs(c, OFB, nonce, p + j, k, r);
    KsIvOfb(c, nonce, k);
  }
}
