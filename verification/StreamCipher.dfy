// The partial-block machine of src/streamcipher/streamcipher.c over a block cipher context. The
// caller's buffers are byte arrays, which may be the same; null input stands for zeros.

module StreamCipher {
  import opened Bytes
  import opened BlockModes
  import opened Keystream
  import BcMode

  /** The bytes a null input stands for. */
  function Data(input: Option<Bytes>, bytes: nat): (r: Bytes)
    requires input.Some? ==> |input.value| == bytes
    ensures |r| == bytes
  {
    if input.Some? then input.value else Zeros(bytes)
  }

  /** What a caller's buffer holds from byte lo to byte hi. */
  function Window(input: array?<Byte>, lo: nat, hi: nat): (r: Option<Bytes>)
    requires lo <= hi && (input != null ==> hi <= input.Length)
    reads input
    ensures r.Some? <==> input != null
    ensures r.Some? ==> |r.value| == hi - lo
  {
    if input != null then Some(input[..][lo..hi]) else None
  }

  function DataAt(input: array?<Byte>, lo: nat, hi: nat): (r: Bytes)
    requires lo <= hi && (input != null ==> hi <= input.Length)
    reads input
    ensures |r| == hi - lo
  {
    Data(Window(input, lo, hi), hi - lo)
  }

  lemma DataSplit(input: array?<Byte>, lo: nat, m: nat, hi: nat)
    requires lo <= m <= hi && (input != null ==> hi <= input.Length)
    ensures DataAt(input, lo, hi) == DataAt(input, lo, m) + DataAt(input, m, hi)
    ensures DataAt(input, lo, hi)[..m - lo] == DataAt(input, lo, m)
  {
  }

  lemma PatchTwice(s: Bytes, at: nat, a: Bytes, b: Bytes)
    requires at + |a| + |b| <= |s|
    ensures Patch(Patch(s, at, a), at + |a|, b) == Patch(s, at, a + b)
  {
    var p, at2 := Patch(s, at, a), at + |a|;
    assert p[..at2] == s[..at] + a;
    assert p[at2 + |b|..] == s[at2 + |b|..];
  }

  /** Writing in front of bytes does not change them. */
  lemma PatchSpares(s: Bytes, at: nat, data: Bytes, lo: nat, hi: nat)
    requires at + |data| <= lo <= hi <= |s|
    ensures Patch(s, at, data)[lo..hi] == s[lo..hi]
  {
    var p := Patch(s, at, data);
    forall k | lo <= k < hi ensures p[k] == s[k] {
      assert p[k] == s[at + |data|..][k - (at + |data|)];
    }
    SameSlice(p, s, lo, hi);
  }

  lemma SameSlice(a: Bytes, b: Bytes, lo: nat, hi: nat)
    requires lo <= hi <= |a| == |b| && forall k :: lo <= k < hi ==> a[k] == b[k]
    ensures a[lo..hi] == b[lo..hi]
  {
  }

  /** memcpy into a caller's buffer. What the caller's input holds behind it, up to byte `to`,
      stays as it was, even if it is the same buffer. */
  method CopyOut(input: array?<Byte>, output: array<Byte>, at: nat, s: Bytes, ghost to: nat)
    requires at + |s| <= to <= output.Length && (input != null ==> to <= input.Length)
    modifies output
    ensures output[..] == Patch(old(output[..]), at, s)
    ensures DataAt(input, at + |s|, to) == old(DataAt(input, at + |s|, to))
  {
    hide Data, Patch;
    ghost var window := Window(input, at + |s|, to);
    PatchSpares(output[..], at, s, at + |s|, to);
    CopyInto(output, at, s);
    if input == output {
      assert Window(input, at + |s|, to) == window;
    } else if input != null {
      assert input[..] == old(input[..]);
      assert Window(input, at + |s|, to) == window;
    } else {
      assert Window(input, at + |s|, to) == window;
    }
    assert DataAt(input, at + |s|, to) == Data(window, to - (at + |s|));
  }

  class Stream {
    const bc: BcMode.Context
    var partialBlock: Bytes
    var partialBytes: nat
    var partialRemaining: nat
    var havePartialBlock: bool
    ghost var nonce: Bytes
    ghost var blockNo: nat

    /** The block cipher context stands in front of keystream block blockNo. */
    ghost predicate Aligned()
      reads this, bc
    {
      && bc.Valid() && KeystreamPrecomputable(bc.mode) && bc.keytype == Encrypt
      && |partialBlock| == |nonce| == bc.c.size
      && bc.Iv() == KsIv(bc.c, bc.mode, nonce, blockNo)
    }

    /** While a partial block is open the IV is still the one in front of that block. */
    ghost predicate Valid()
      reads this, bc
    {
      && Aligned()
      && (havePartialBlock ==> 0 < partialBytes && 0 < partialRemaining && partialBytes + partialRemaining == bc.c.size)
    }

    /** How many keystream bytes have been used since the nonce was set. */
    ghost function Position(): nat
      requires Valid()
      reads this, bc
    {
      Times(blockNo, bc.c.size) + if havePartialBlock then partialBytes else 0
    }

    /** k_sc_init_with_blockcipher on a context whose mode produces a keystream. */
    constructor (bc: BcMode.Context)
      requires bc.Valid() && KeystreamPrecomputable(bc.mode) && bc.keytype == Encrypt
      ensures Valid() && this.bc == bc && Position() == 0 && nonce == bc.Iv()
    {
      this.bc := bc;
      partialBlock := Zeros(bc.c.size);
      partialBytes, partialRemaining, havePartialBlock := 0, 0, false;
      nonce, blockNo := bc.Iv(), 0;
    }

    /** k_sc_set_key; `keyed` are the block transforms of the new key, None keeps the old key. */
    method SetKey(nonce: Bytes, keyed: Option<Cipher>)
      requires Valid() && |nonce| == bc.c.size
      requires keyed.Some? ==> keyed.value.Valid() && keyed.value.size == bc.c.size
      modifies this, bc
      ensures Valid() && this.nonce == nonce && Position() == 0
      ensures bc.c == if keyed.Some? then keyed.value else old(bc.c)
    {
      hide Cipher.Valid;
      if keyed.Some? {
        bc.SetKey(keyed.value, Encrypt);
      }
      bc.SetIv(nonce);
      havePartialBlock := false;
      this.nonce, blockNo := nonce, 0;
    }

    /** k_bcmode_update on n blocks of bytes. */
    method UpdateBlocks(input: Option<Bytes>, n: nat) returns (output: Bytes)
      requires Aligned() && (input.Some? ==> |input.value| == Times(n, bc.c.size))
      modifies bc`workerIvs
      ensures bc.Valid() && bc.Iv() == KsIv(bc.c, bc.mode, nonce, blockNo + n)
      ensures output == Crypt(bc.c, bc.mode, nonce, Times(blockNo, bc.c.size), Data(input, Times(n, bc.c.size)))
    {
      hide Cipher.Valid, KsIv, KsBlock, Crypt, RunOut, RunIv, Xored;
      var size := bc.c.size;
      var dst := new Bytes[n](_ => Zeros(size));
      var src: array?<Bytes> := null;
      ghost var data := Data(input, Times(n, size));
      if input.Some? {
        var cells := BlocksOf(input.value, n, size);
        src := new Bytes[n](k requires 0 <= k < n => cells[k]);
        assert src[..n] == cells;
      } else {
        ZeroBlocks(n, size);
      }
      ghost var xs := BcMode.Input(src, n, size);
      assert xs == BlocksOf(data, n, size);
      ghost var iv := bc.Iv();
      bc.Update(src, dst, n);
      assert dst[..] == RunOut(bc.c, bc.mode, Encrypt, iv, xs);
      RunIsKeystream(bc.c, bc.mode, nonce, blockNo, xs);
      JoinIsCrypt(bc.c, bc.mode, nonce, blockNo, data, n, dst[..]);
      output := Join(dst[..]);
    }

    /** k_bcmode_update on the partial block or on a null input, into a fresh block. */
    method UpdateOne(block: Option<Bytes>) returns (out: Bytes)
      requires Aligned() && (block.Some? ==> |block.value| == bc.c.size)
      modifies bc`workerIvs
      ensures bc.Valid() && bc.Iv() == KsIv(bc.c, bc.mode, nonce, blockNo + 1)
      ensures out == Xor(KsBlock(bc.c, bc.mode, nonce, blockNo), Data(block, bc.c.size))
    {
      hide Cipher.Valid, KsIv, KsBlock, Crypt;
      assert Times(1, bc.c.size) == bc.c.size;
      out := UpdateBlocks(block, 1);
      BlockIsCrypt(bc.c, bc.mode, nonce, blockNo, Data(block, bc.c.size));
    }

    /** UpdateOne, undone on the IV when the block is not used up yet. */
    method UpdatePartial(block: Option<Bytes>, keep: bool) returns (out: Bytes)
      requires Aligned() && (block.Some? ==> |block.value| == bc.c.size)
      modifies bc`workerIvs, bc`ivBackup
      ensures bc.Valid() && bc.Iv() == if keep then old(bc.Iv()) else KsIv(bc.c, bc.mode, nonce, blockNo + 1)
      ensures out == Xor(KsBlock(bc.c, bc.mode, nonce, blockNo), Data(block, bc.c.size))
    {
      hide Cipher.Valid, KsIv, KsBlock;
      if keep {
        bc.BackupIv();
      }
      out := UpdateOne(block);
      if keep {
        bc.RestoreIv();
      }
    }

    /** The next b bytes of the partial block, in and out. */
    method HeadBytes(input: Option<Bytes>, bytes: nat, b: nat, keep: bool) returns (output: Bytes)
      requires Aligned() && (input.Some? ==> |input.value| == bytes)
      requires b <= bytes && partialBytes + b <= bc.c.size
      modifies this`partialBlock, bc`workerIvs, bc`ivBackup
      ensures bc.Valid() && bc.Iv() == (if keep then old(bc.Iv()) else KsIv(bc.c, bc.mode, nonce, blockNo + 1))
      ensures |partialBlock| == bc.c.size
      ensures output == Crypt(bc.c, bc.mode, nonce, Times(blockNo, bc.c.size) + partialBytes, Data(input, bytes)[..b])
    {
      hide Cipher.Valid, KsIv, KsBlock, Crypt, Xor, Times, Patch, Zeros;
      ZeroSlices(bc.c.size, partialBytes, bytes, b);
      if input.Some? {
        partialBlock := Patch(partialBlock, partialBytes, input.value[..b]);
      }
      var block := if input.Some? then Some(partialBlock) else None;
      assert Data(block, bc.c.size)[partialBytes..partialBytes + b] == Data(input, bytes)[..b];
      var first := UpdatePartial(block, keep);
      SliceIsCrypt(bc.c, bc.mode, nonce, blockNo, Data(block, bc.c.size), partialBytes, Data(input, bytes)[..b]);
      output := first[partialBytes..partialBytes + b];
    }

    /** The first part of k_sc_update: use up the partial block. */
    method Head(input: Option<Bytes>, bytes: nat) returns (output: Bytes, b: nat)
      requires Valid() && havePartialBlock && (input.Some? ==> |input.value| == bytes)
      modifies this`partialBlock, this`partialBytes, this`partialRemaining, this`havePartialBlock, this`blockNo,
               bc`workerIvs, bc`ivBackup
      ensures Valid() && b <= bytes && Position() == old(Position()) + b
      ensures output == Crypt(bc.c, bc.mode, nonce, old(Position()), Data(input, bytes)[..b])
      ensures havePartialBlock ==> b == bytes
    {
      hide Cipher.Valid, KsIv, KsBlock, Crypt, Times;
      b := if bytes > partialRemaining then partialRemaining else bytes;
      partialRemaining := partialRemaining - b;
      output := HeadBytes(input, bytes, b, partialRemaining > 0);
      partialBytes := partialBytes + b;
      if partialRemaining == 0 {
        partialBytes := 0;
        havePartialBlock := false;
        TimesNext(blockNo, bc.c.size);
        blockNo := blockNo + 1;
      }
    }

    /** The last part of k_sc_update: open a new partial block with the remaining bytes. */
    method Tail(input: Option<Bytes>, rem: nat) returns (output: Bytes)
      requires Valid() && !havePartialBlock && 0 < rem < bc.c.size && (input.Some? ==> |input.value| == rem)
      modifies this`partialBlock, this`partialBytes, this`partialRemaining, this`havePartialBlock,
               bc`workerIvs, bc`ivBackup
      ensures Valid() && Position() == old(Position()) + rem
      ensures output == Crypt(bc.c, bc.mode, nonce, old(Position()), Data(input, rem))
    {
      hide Cipher.Valid, KsIv, KsBlock, Crypt, Times, Data;
      partialBlock := Zeros(bc.c.size);
      partialBytes := 0;
      output := HeadBytes(input, rem, rem, true);
      WholeSlice(Data(input, rem), rem);
      partialBytes := rem;
      partialRemaining := bc.c.size - rem;
      havePartialBlock := true;
    }

    /** The middle of k_sc_update: all whole blocks in one call. */
    method Whole(input: Option<Bytes>, n: nat) returns (output: Bytes)
      requires Valid() && !havePartialBlock && (input.Some? ==> |input.value| == Times(n, bc.c.size))
      modifies this`blockNo, bc`workerIvs
      ensures Valid() && Position() == old(Position()) + Times(n, bc.c.size)
      ensures output == Crypt(bc.c, bc.mode, nonce, old(Position()), Data(input, Times(n, bc.c.size)))
    {
      hide Cipher.Valid, KsIv, KsBlock, Crypt, Xor8;
      output := UpdateBlocks(input, n);
      TimesSum(blockNo, n, bc.c.size);
      blockNo := blockNo + n;
    }

    /** k_sc_update: any number of bytes, whatever was read before, comes out xored with the
        keystream of key and nonce at the running position. Input and output may be the same
        buffer, since each part is read before it is written. */
    method Update(input: array?<Byte>, output: array<Byte>, bytes: nat)
      requires Valid() && bytes <= output.Length && (input != null ==> bytes <= input.Length)
      modifies this`partialBlock, this`partialBytes, this`partialRemaining, this`havePartialBlock, this`blockNo,
               bc`workerIvs, bc`ivBackup, output
      ensures Valid() && Position() == old(Position()) + bytes
      ensures output[..] ==
        Patch(old(output[..]), 0, Crypt(bc.c, bc.mode, nonce, old(Position()), old(DataAt(input, 0, bytes))))
    {
      hide Cipher.Valid, KsIv, KsBlock, Crypt, Xor8, Times, DataAt, Patch, Stream.Position, Stream.Valid;
      ghost var start, before, data := Position(), output[..], DataAt(input, 0, bytes);
      var b := 0;
      if havePartialBlock {
        ghost var head;
        b, head := HeadAt(input, output, bytes);
        DataSplit(input, 0, b, bytes);
        NowCrypt(start, data[..b], data[b..]);
        assert data == data[..b] + data[b..];
        if !havePartialBlock {
          PatchTwice(before, 0, head, Crypt(bc.c, bc.mode, nonce, start + b, data[b..]));
        }
      }
      assert data[..bytes] == data && data[0..] == data;
      if !havePartialBlock {
        Rest(input, output, b, bytes);
      }
    }

    /** The first part of k_sc_update in the caller's buffers. */
    method HeadAt(input: array?<Byte>, output: array<Byte>, bytes: nat) returns (b: nat, ghost head: Bytes)
      requires Valid() && havePartialBlock && bytes <= output.Length && (input != null ==> bytes <= input.Length)
      modifies this`partialBlock, this`partialBytes, this`partialRemaining, this`havePartialBlock, this`blockNo,
               bc`workerIvs, bc`ivBackup, output
      ensures Valid() && b == |head| <= bytes && Position() == old(Position()) + b && (havePartialBlock ==> b == bytes)
      ensures head == Crypt(bc.c, bc.mode, nonce, old(Position()), old(DataAt(input, 0, bytes))[..b])
      ensures output[..] == Patch(old(output[..]), 0, head)
      ensures DataAt(input, b, bytes) == old(DataAt(input, 0, bytes))[b..]
    {
      hide Cipher.Valid, KsIv, KsBlock, Crypt, Xor8, Times, Data, Patch, Stream.Position, Stream.Aligned;
      var block;
      block, b := Head(Window(input, 0, bytes), bytes);
      DataSplit(input, 0, b, bytes);
      CopyOut(input, output, 0, block, bytes);
      head := block;
    }

    lemma NowCrypt(p: nat, a: Bytes, b: Bytes)
      requires Valid()
      ensures bc.c.Valid() && KeystreamPrecomputable(bc.mode) && |nonce| == bc.c.size
      ensures Crypt(bc.c, bc.mode, nonce, p, a + b) ==
              Crypt(bc.c, bc.mode, nonce, p, a) + Crypt(bc.c, bc.mode, nonce, p + |a|, b)
    {
      hide Cipher.Valid, KsIv, Crypt;
      CryptSplit(bc.c, bc.mode, nonce, p, a, b);
    }

    /** k_sc_update behind the partial block. */
    method Rest(input: array?<Byte>, output: array<Byte>, from: nat, to: nat)
      requires Valid() && !havePartialBlock && from <= to <= output.Length && (input != null ==> to <= input.Length)
      modifies this`partialBlock, this`partialBytes, this`partialRemaining, this`havePartialBlock, this`blockNo,
               bc`workerIvs, bc`ivBackup, output
      ensures Valid() && Position() == old(Position()) + (to - from)
      ensures output[..] ==
        Patch(old(output[..]), from, Crypt(bc.c, bc.mode, nonce, old(Position()), old(DataAt(input, from, to))))
    {
      hide Cipher.Valid, KsIv, KsBlock, Crypt, Xor8, Times, DataAt, Patch, Stream.Position, Stream.Valid;
      ghost var start, before := Position(), output[..];
      BlockSize();
      var rem, n := (to - from) % bc.c.size, (to - from) / bc.c.size;
      LengthSplit(to - from, bc.c.size);
      var m := to - rem;
      DataSplit(input, from, m, to);
      NowCrypt(start, DataAt(input, from, m), DataAt(input, m, to));
      ghost var tail := Crypt(bc.c, bc.mode, nonce, start + (m - from), DataAt(input, m, to));
      ghost var blocks := WholeAt(input, output, from, n, m, to);
      if rem > 0 {
        var last := Tail(Window(input, m, to), rem);
        TailData(input, m, to);
        CopyOut(input, output, m, last, to);
        PatchTwice(before, from, blocks, last);
      } else {
        assert tail == [] && blocks + tail == blocks;
      }
    }

    static lemma TailData(input: array?<Byte>, m: nat, to: nat)
      requires m <= to && (input != null ==> to <= input.Length)
      ensures DataAt(input, m, to) == Data(Window(input, m, to), to - m)
    {
    }

    /** The middle of k_sc_update in the caller's buffers. */
    method WholeAt(input: array?<Byte>, output: array<Byte>, from: nat, n: nat, m: nat, ghost to: nat)
        returns (ghost blocks: Bytes)
      requires Valid() && !havePartialBlock && from <= m <= to <= output.Length
      requires input != null ==> to <= input.Length
      requires m - from == Times(n, bc.c.size)
      modifies this`blockNo, bc`workerIvs, output
      ensures Valid() && Position() == old(Position()) + (m - from) && |blocks| == m - from
      ensures blocks == Crypt(bc.c, bc.mode, nonce, old(Position()), old(DataAt(input, from, m)))
      ensures output[..] == Patch(old(output[..]), from, blocks)
      ensures DataAt(input, m, to) == old(DataAt(input, m, to))
    {
      hide Cipher.Valid, KsIv, KsBlock, Crypt, Xor8, Times, Data, Patch, Stream.Position;
      var bytes := Whole(Window(input, from, m), n);
      CopyOut(input, output, from, bytes, to);
      blocks := bytes;
    }

    lemma BlockSize()
      requires Valid()
      ensures bc.c.size > 0
    {
      BcMode.SizeAtLeast8(bc.c);
    }

    /** k_sc_keystream */
    method KeystreamBytes(bytes: nat) returns (output: array<Byte>)
      requires Valid()
      modifies this`partialBlock, this`partialBytes, this`partialRemaining, this`havePartialBlock, this`blockNo,
               bc`workerIvs, bc`ivBackup
      ensures Valid() && Position() == old(Position()) + bytes && fresh(output) && output.Length == bytes
      ensures forall j :: 0 <= j < bytes ==> output[j] == KsByte(bc.c, bc.mode, nonce, old(Position()) + j)
    {
      hide Cipher.Valid, KsByte, KsIv, Crypt, Data, Zeros, Stream.Position;
      DataOfNone(bytes);
      output := new Byte[bytes];
      Update(null, output, bytes);
      CryptZeros(bc.c, bc.mode, nonce, old(Position()), bytes);
    }
  }

  lemma CryptZeros(c: Cipher, m: Mode, nonce: Bytes, p: nat, n: nat)
    requires c.Valid() && KeystreamPrecomputable(m) && |nonce| == c.size
    ensures forall j :: 0 <= j < n ==> Crypt(c, m, nonce, p, Zeros(n))[j] == KsByte(c, m, nonce, p + j)
  {
    hide Cipher.Valid, KsByte, Xor8;
    forall j | 0 <= j < n ensures Crypt(c, m, nonce, p, Zeros(n))[j] == KsByte(c, m, nonce, p + j) {
      Xor8Laws(KsByte(c, m, nonce, p + j), 0);
    }
  }

  lemma {:induction false} ZeroBlocks(n: nat, size: nat)
    ensures BlocksOf(Zeros(Times(n, size)), n, size) == seq(n, _ => Zeros(size))
  {
    if n > 0 {
      ZeroBlocks(n - 1, size);
      var s := Zeros(Times(n, size));
      assert s[..size] == Zeros(size);
      assert s[size..] == Zeros(Times(n - 1, size));
    }
  }

  lemma DataOfNone(n: nat)
    ensures Data(None, n) == Zeros(n)
  {
  }

  lemma WholeSlice(s: Bytes, n: nat)
    requires |s| == n
    ensures s[..n] == s
  {
  }

  lemma ZeroSlices(size: nat, r: nat, bytes: nat, b: nat)
    requires r + b <= size && b <= bytes
    ensures Zeros(size)[r..r + b] == Zeros(bytes)[..b]
  {
  }

  lemma TimesNext(n: nat, size: nat)
    ensures Times(n + 1, size) == Times(n, size) + size
  {
  }

  lemma {:induction false} TimesSum(m: nat, n: nat, size: nat)
    ensures Times(m + n, size) == Times(m, size) + Times(n, size)
  {
    if n > 0 {
      TimesSum(m, n - 1, size);
    }
  }
}
