// The block cipher modes of src/blockcipher/modes as one-block transition functions,
// their runs over a list of blocks, and what those runs promise.

module BlockModes {
  import opened Bytes
  import opened Words

  /** A block cipher under a fixed key: size is the block length in bytes. */
  datatype Cipher = Cipher(size: nat, enc: Bytes -> Bytes, dec: Bytes -> Bytes) {
    ghost predicate Valid() {
      && size >= 8 && size % 8 == 0
      && (forall x: Bytes :: |x| == size ==> |enc(x)| == size)
      && (forall x: Bytes :: |x| == size ==> |dec(x)| == size)
    }

    ghost predicate Invertible() {
      forall x: Bytes :: |x| == size ==> dec(enc(x)) == x
    }
  }

  datatype Mode = NOOP | ECB | CBC | CFB | OFB | CTR

  datatype Dir = Encrypt | Decrypt

  /** The flags of the mode descriptors. */
  predicate Parallelizable(m: Mode, d: Dir) {
    match m
    case NOOP => true
    case ECB => true
    case CBC => d.Decrypt?
    case CFB => d.Decrypt?
    case OFB => false
    case CTR => true
  }

  predicate KeystreamPrecomputable(m: Mode) {
    m.OFB? || m.CTR?
  }

  /** The modes whose descriptor has a prepare_iv function. */
  predicate PreparesIvs(m: Mode) {
    m.CBC? || m.CFB? || m.CTR?
  }

  ghost predicate Blocks(c: Cipher, xs: seq<Bytes>) {
    forall k :: 0 <= k < |xs| ==> |xs[k]| == c.size
  }

  // ---------------------------------------------------------------- the counter

  /** The IV whose last eight bytes, a little-endian counter, are advanced by n modulo 2^64. */
  function CtrAdd(iv: Bytes, n: nat): (r: Bytes)
    requires |iv| >= 8
    ensures |r| == |iv|
  {
    iv[..|iv| - 8] + Put64(Add(Get64(iv[|iv| - 8..]), WordOf(n)))
  }

  lemma CtrAddZero(iv: Bytes)
    requires |iv| >= 8
    ensures CtrAdd(iv, 0) == iv
  {
    hide Get64, Put64, Add, WordOf;
    var tail := iv[|iv| - 8..];
    AddZero(Get64(tail));
    PutGet64(tail);
  }

  lemma CtrAddSum(iv: Bytes, m: nat, n: nat)
    requires |iv| >= 8
    ensures CtrAdd(CtrAdd(iv, m), n) == CtrAdd(iv, m + n)
  {
    hide Get64, Put64, Add, WordOf;
    var head, w := iv[..|iv| - 8], Get64(iv[|iv| - 8..]);
    var mid := CtrAdd(iv, m);
    assert mid[..|iv| - 8] == head;
    assert mid[|iv| - 8..] == Put64(Add(w, WordOf(m)));
    GetPut64(Add(w, WordOf(m)));
    AddAssociates(w, WordOf(m), WordOf(n));
    WordOfSum(m, n);
  }

  /** In numbers: the last eight bytes count, modulo 2^64, and the others stay. */
  lemma CtrAddNumber(iv: Bytes, n: nat)
    requires |iv| >= 8
    ensures CtrAdd(iv, n)[..|iv| - 8] == iv[..|iv| - 8]
    ensures LeValue(CtrAdd(iv, n)[|iv| - 8..]) == (LeValue(iv[|iv| - 8..]) + n) % TWO64
  {
    hide Get64, Put64, Add, WordOf, LeValue;
    var tail := iv[|iv| - 8..];
    AddToBytes(tail, n);
    assert CtrAdd(iv, n)[|iv| - 8..] == Put64(Add(Get64(tail), WordOf(n)));
  }

  // ---------------------------------------------------------------- one block

  /** The output block for input x under iv. */
  function StepOut(c: Cipher, m: Mode, d: Dir, iv: Bytes, x: Bytes): (y: Bytes)
    requires c.Valid() && |iv| == c.size && |x| == c.size
    ensures |y| == c.size
  {
    match (m, d)
    case (NOOP, _) => x
    case (ECB, Encrypt) => c.enc(x)
    case (ECB, Decrypt) => c.dec(x)
    case (CBC, Encrypt) => c.enc(Xor(iv, x))
    case (CBC, Decrypt) => Xor(c.dec(x), iv)
    case (CFB, _) => Xor(c.enc(iv), x)
    case (OFB, _) => Xor(c.enc(iv), x)
    case (CTR, _) => Xor(c.enc(iv), x)
  }

  /** The IV after input x under iv. */
  function StepIv(c: Cipher, m: Mode, d: Dir, iv: Bytes, x: Bytes): (r: Bytes)
    requires c.Valid() && |iv| == c.size && |x| == c.size
    ensures |r| == c.size
  {
    match (m, d)
    case (NOOP, _) => iv
    case (ECB, _) => iv
    case (CBC, Encrypt) => StepOut(c, m, d, iv, x)
    case (CBC, Decrypt) => x
    case (CFB, Encrypt) => StepOut(c, m, d, iv, x)
    case (CFB, Decrypt) => x
    case (OFB, _) => c.enc(iv)
    case (CTR, _) => CtrAdd(iv, 1)
  }

  // ---------------------------------------------------------------- runs

  /** The IV after the first k blocks of xs. */
  function IvAt(c: Cipher, m: Mode, d: Dir, iv: Bytes, xs: seq<Bytes>, k: nat): (r: Bytes)
    requires c.Valid() && |iv| == c.size && Blocks(c, xs) && k <= |xs|
    ensures |r| == c.size
  {
    if k == 0 then iv else StepIv(c, m, d, IvAt(c, m, d, iv, xs, k - 1), xs[k - 1])
  }

  /** Output block k of the sequential run over xs. */
  function OutAt(c: Cipher, m: Mode, d: Dir, iv: Bytes, xs: seq<Bytes>, k: nat): (r: Bytes)
    requires c.Valid() && |iv| == c.size && Blocks(c, xs) && k < |xs|
    ensures |r| == c.size
  {
    StepOut(c, m, d, IvAt(c, m, d, iv, xs, k), xs[k])
  }

  function RunOut(c: Cipher, m: Mode, d: Dir, iv: Bytes, xs: seq<Bytes>): (r: seq<Bytes>)
    requires c.Valid() && |iv| == c.size && Blocks(c, xs)
    ensures |r| == |xs| && Blocks(c, r)
  {
    seq(|xs|, k requires 0 <= k < |xs| => OutAt(c, m, d, iv, xs, k))
  }

  function RunIv(c: Cipher, m: Mode, d: Dir, iv: Bytes, xs: seq<Bytes>): (r: Bytes)
    requires c.Valid() && |iv| == c.size && Blocks(c, xs)
    ensures |r| == c.size
  {
    IvAt(c, m, d, iv, xs, |xs|)
  }

  /** A run depends only on the blocks it has consumed. */
  lemma {:induction false} IvAtPrefix(c: Cipher, m: Mode, d: Dir, iv: Bytes, xs: seq<Bytes>, ys: seq<Bytes>, k: nat)
    requires c.Valid() && |iv| == c.size && Blocks(c, xs) && Blocks(c, ys)
    requires k <= |xs| && k <= |ys| && xs[..k] == ys[..k]
    ensures IvAt(c, m, d, iv, xs, k) == IvAt(c, m, d, iv, ys, k)
  {
    hide Cipher.Valid, StepOut, StepIv;
    if k > 0 {
      assert xs[..k - 1] == xs[..k][..k - 1] == ys[..k - 1];
      assert xs[k - 1] == xs[..k][k - 1] == ys[k - 1];
      IvAtPrefix(c, m, d, iv, xs, ys, k - 1);
    }
  }

  lemma {:induction false} IvAtSplit(c: Cipher, m: Mode, d: Dir, iv: Bytes, xs: seq<Bytes>, ys: seq<Bytes>, k: nat)
    requires c.Valid() && |iv| == c.size && Blocks(c, xs) && Blocks(c, ys) && k <= |ys|
    ensures Blocks(c, xs + ys)
    ensures IvAt(c, m, d, iv, xs + ys, |xs| + k) == IvAt(c, m, d, RunIv(c, m, d, iv, xs), ys, k)
  {
    hide Cipher.Valid, StepOut, StepIv;
    if k == 0 {
      IvAtPrefix(c, m, d, iv, xs + ys, xs, |xs|);
    } else {
      IvAtSplit(c, m, d, iv, xs, ys, k - 1);
    }
  }

  /** Splitting the blocks over two update calls changes neither output nor final IV. */
  lemma RunSplit(c: Cipher, m: Mode, d: Dir, iv: Bytes, xs: seq<Bytes>, ys: seq<Bytes>)
    requires c.Valid() && |iv| == c.size && Blocks(c, xs) && Blocks(c, ys)
    ensures Blocks(c, xs + ys)
    ensures RunOut(c, m, d, iv, xs + ys) == RunOut(c, m, d, iv, xs) + RunOut(c, m, d, RunIv(c, m, d, iv, xs), ys)
    ensures RunIv(c, m, d, iv, xs + ys) == RunIv(c, m, d, RunIv(c, m, d, iv, xs), ys)
  {
    hide Cipher.Valid, StepOut, StepIv;
    var mid := RunIv(c, m, d, iv, xs);
    var whole := RunOut(c, m, d, iv, xs + ys);
    forall k | 0 <= k < |xs| ensures whole[k] == OutAt(c, m, d, iv, xs, k) {
      IvAtPrefix(c, m, d, iv, xs + ys, xs, k);
    }
    forall k | 0 <= k < |ys| ensures whole[|xs| + k] == OutAt(c, m, d, mid, ys, k) {
      IvAtSplit(c, m, d, iv, xs, ys, k);
    }
    IvAtSplit(c, m, d, iv, xs, ys, |ys|);
    assert whole == RunOut(c, m, d, iv, xs) + RunOut(c, m, d, mid, ys);
  }

  /** Any list of update calls on one context. */
  function CallsOut(c: Cipher, m: Mode, d: Dir, iv: Bytes, calls: seq<seq<Bytes>>): (r: seq<Bytes>)
    requires c.Valid() && |iv| == c.size && (forall k :: 0 <= k < |calls| ==> Blocks(c, calls[k]))
    decreases |calls|
  {
    if calls == [] then []
    else RunOut(c, m, d, iv, calls[0]) + CallsOut(c, m, d, RunIv(c, m, d, iv, calls[0]), calls[1..])
  }

  function Flatten<T>(xss: seq<seq<T>>): seq<T> {
    if xss == [] then [] else xss[0] + Flatten(xss[1..])
  }

  lemma {:induction false} CallsAreOneRun(c: Cipher, m: Mode, d: Dir, iv: Bytes, calls: seq<seq<Bytes>>)
    requires c.Valid() && |iv| == c.size && (forall k :: 0 <= k < |calls| ==> Blocks(c, calls[k]))
    ensures Blocks(c, Flatten(calls))
    ensures CallsOut(c, m, d, iv, calls) == RunOut(c, m, d, iv, Flatten(calls))
    decreases |calls|
  {
    hide Cipher.Valid, StepOut, StepIv, IvAt;
    if calls != [] {
      CallsAreOneRun(c, m, d, RunIv(c, m, d, iv, calls[0]), calls[1..]);
      RunSplit(c, m, d, iv, calls[0], Flatten(calls[1..]));
    }
  }

  // ---------------------------------------------------------------- decryption inverts encryption

  ghost predicate Decryptable(c: Cipher, m: Mode) {
    m.CBC? || m.ECB? ==> c.Invertible()
  }

  lemma StepInverse(c: Cipher, m: Mode, iv: Bytes, x: Bytes)
    requires c.Valid() && |iv| == c.size && |x| == c.size && Decryptable(c, m)
    ensures StepOut(c, m, Decrypt, iv, StepOut(c, m, Encrypt, iv, x)) == x
    ensures StepIv(c, m, Decrypt, iv, StepOut(c, m, Encrypt, iv, x)) == StepIv(c, m, Encrypt, iv, x)
  {
    hide CtrAdd, Xor8;
    if m.CBC? {
      XorCommutes(iv, x);
      XorCancels(x, iv);
    } else if m.CFB? || m.OFB? || m.CTR? {
      XorCancels(c.enc(iv), x);
    }
  }

  lemma {:induction false} IvAtInverse(c: Cipher, m: Mode, iv: Bytes, xs: seq<Bytes>, ys: seq<Bytes>, k: nat)
    requires c.Valid() && |iv| == c.size && Blocks(c, xs) && Decryptable(c, m) && k <= |xs| == |ys| && Blocks(c, ys)
    requires forall i :: 0 <= i < |xs| ==> ys[i] == OutAt(c, m, Encrypt, iv, xs, i)
    ensures IvAt(c, m, Decrypt, iv, ys, k) == IvAt(c, m, Encrypt, iv, xs, k)
  {
    hide Cipher.Valid, Cipher.Invertible, Decryptable, StepOut, StepIv;
    if k > 0 {
      var before := IvAt(c, m, Encrypt, iv, xs, k - 1);
      IvAtInverse(c, m, iv, xs, ys, k - 1);
      assert ys[k - 1] == StepOut(c, m, Encrypt, before, xs[k - 1]);
      StepInverse(c, m, before, xs[k - 1]);
    }
  }

  /** Whatever blocks are encrypted, and however the encrypted blocks are then grouped into
      update calls, decrypting from the same IV gives them back: CBC and ECB need the inverse
      block transform, CFB, OFB and CTR only the forward one. */
  lemma DecryptInvertsEncrypt(c: Cipher, m: Mode, iv: Bytes, xs: seq<Bytes>, calls: seq<seq<Bytes>>)
    requires c.Valid() && |iv| == c.size && Blocks(c, xs) && Decryptable(c, m)
    requires forall k :: 0 <= k < |calls| ==> Blocks(c, calls[k])
    requires Flatten(calls) == RunOut(c, m, Encrypt, iv, xs)
    ensures CallsOut(c, m, Decrypt, iv, calls) == xs
    ensures RunIv(c, m, Decrypt, iv, Flatten(calls)) == RunIv(c, m, Encrypt, iv, xs)
  {
    hide Cipher.Valid, Cipher.Invertible, Decryptable, StepOut, StepIv;
    var ys := RunOut(c, m, Encrypt, iv, xs);
    CallsAreOneRun(c, m, Decrypt, iv, calls);
    forall k | 0 <= k < |xs| ensures RunOut(c, m, Decrypt, iv, ys)[k] == xs[k] {
      IvAtInverse(c, m, iv, xs, ys, k);
      StepInverse(c, m, IvAt(c, m, Encrypt, iv, xs, k), xs[k]);
    }
    IvAtInverse(c, m, iv, xs, ys, |xs|);
  }

  // ---------------------------------------------------------------- where a worker may start

  /** In the parallelizable directions the IV in front of block k can be read off the input:
      it is the previous input block for CBC and CFB and the start counter plus k for CTR. */
  function DirectIv(c: Cipher, m: Mode, iv: Bytes, xs: seq<Bytes>, k: nat): (r: Bytes)
    requires c.Valid() && |iv| == c.size && Blocks(c, xs) && k <= |xs|
    ensures |r| == c.size
  {
    match m
    case CTR => CtrAdd(iv, k)
    case CBC => if k == 0 then iv else xs[k - 1]
    case CFB => if k == 0 then iv else xs[k - 1]
    case _ => iv
  }

  lemma {:induction false} IvAtDirect(c: Cipher, m: Mode, d: Dir, iv: Bytes, xs: seq<Bytes>, k: nat)
    requires c.Valid() && |iv| == c.size && Blocks(c, xs) && k <= |xs| && Parallelizable(m, d)
    ensures IvAt(c, m, d, iv, xs, k) == DirectIv(c, m, iv, xs, k)
  {
    hide CtrAdd;
    if k == 0 {
      CtrAddZero(iv);
    } else {
      IvAtDirect(c, m, d, iv, xs, k - 1);
      if m.CTR? {
        CtrAddSum(iv, k - 1, 1);
      }
    }
  }

  /** A direction is parallelizable exactly when these IVs do not depend on the block cipher. */
  lemma ParallelizableExactly(m: Mode, d: Dir)
    ensures Parallelizable(m, d) <==>
      forall c1: Cipher, c2: Cipher, iv: Bytes, xs: seq<Bytes>, k: nat ::
        c1.Valid() && c2.Valid() && |iv| == c1.size == c2.size && Blocks(c1, xs) && Blocks(c2, xs) && k <= |xs| ==>
          IvAt(c1, m, d, iv, xs, k) == IvAt(c2, m, d, iv, xs, k)
  {
    hide IvAt, DirectIv, CtrAdd;
    if Parallelizable(m, d) {
      forall c1: Cipher, c2: Cipher, iv: Bytes, xs: seq<Bytes>, k: nat |
        c1.Valid() && c2.Valid() && |iv| == c1.size == c2.size && Blocks(c1, xs) && Blocks(c2, xs) && k <= |xs|
        ensures IvAt(c1, m, d, iv, xs, k) == IvAt(c2, m, d, iv, xs, k)
      {
        IvAtDirect(c1, m, d, iv, xs, k);
        IvAtDirect(c2, m, d, iv, xs, k);
        SameDirect(c1, c2, m, iv, xs, k);
      }
    } else {
      var zeros, ones := Zeros(8), seq(8, _ => 1 as Byte);
      var c1, c2 := Cipher(8, _ => zeros, _ => zeros), Cipher(8, _ => ones, _ => ones);
      assert zeros[0] != ones[0];
      FirstIv(c1, m, d, zeros, [zeros]);
      FirstIv(c2, m, d, zeros, [zeros]);
    }
  }

  lemma SameDirect(c1: Cipher, c2: Cipher, m: Mode, iv: Bytes, xs: seq<Bytes>, k: nat)
    requires c1.Valid() && c2.Valid() && |iv| == c1.size == c2.size && Blocks(c1, xs) && Blocks(c2, xs) && k <= |xs|
    ensures DirectIv(c1, m, iv, xs, k) == DirectIv(c2, m, iv, xs, k)
  {
  }

  lemma FirstIv(c: Cipher, m: Mode, d: Dir, iv: Bytes, xs: seq<Bytes>)
    requires c.Valid() && |iv| == c.size && Blocks(c, xs) && |xs| > 0
    ensures IvAt(c, m, d, iv, xs, 1) == StepIv(c, m, d, iv, xs[0])
  {
    assert IvAt(c, m, d, iv, xs, 0) == iv;
  }

  // ---------------------------------------------------------------- the modes as published

  /** CTR: block k is xored with the encryption of the start block whose last eight bytes, a
      little-endian number, are advanced by k modulo 2^64. */
  lemma CtrIs(c: Cipher, d: Dir, iv: Bytes, xs: seq<Bytes>, k: nat, t: Bytes)
    requires c.Valid() && |iv| == c.size && Blocks(c, xs) && k < |xs| && |t| == c.size
    requires t[..c.size - 8] == iv[..c.size - 8]
    requires LeValue(t[c.size - 8..]) == (LeValue(iv[c.size - 8..]) + k) % TWO64
    ensures RunOut(c, CTR, d, iv, xs)[k] == Xor(c.enc(t), xs[k])
  {
    hide CtrAdd, LeValue, Xor;
    IvAtDirect(c, CTR, d, iv, xs, k);
    CtrAddNumber(iv, k);
    var u := CtrAdd(iv, k);
    SameNumber(u[c.size - 8..], t[c.size - 8..]);
    assert u == u[..c.size - 8] + u[c.size - 8..] && t == t[..c.size - 8] + t[c.size - 8..];
  }

  lemma CtrIvIs(c: Cipher, d: Dir, iv: Bytes, xs: seq<Bytes>)
    requires c.Valid() && |iv| == c.size && Blocks(c, xs)
    ensures RunIv(c, CTR, d, iv, xs)[..c.size - 8] == iv[..c.size - 8]
    ensures LeValue(RunIv(c, CTR, d, iv, xs)[c.size - 8..]) == (LeValue(iv[c.size - 8..]) + |xs|) % TWO64
  {
    hide CtrAdd, LeValue, IvAt;
    IvAtDirect(c, CTR, d, iv, xs, |xs|);
    CtrAddNumber(iv, |xs|);
  }

  /** The block in front of block k, the start block being in front of the first. */
  function InFront(iv: Bytes, xs: seq<Bytes>, k: nat): Bytes
    requires k <= |xs|
  {
    if k == 0 then iv else xs[k - 1]
  }

  /** The block cipher applied n times. */
  function Repeated(c: Cipher, iv: Bytes, n: nat): (r: Bytes)
    requires c.Valid() && |iv| == c.size
    ensures |r| == c.size
  {
    if n == 0 then iv else c.enc(Repeated(c, iv, n - 1))
  }

  /** ECB, CBC, CFB and OFB of NIST SP 800-38A, sections 6.1 to 6.4. */
  lemma ModesAre(c: Cipher, iv: Bytes, xs: seq<Bytes>, k: nat)
    requires c.Valid() && |iv| == c.size && Blocks(c, xs) && k < |xs|
    ensures RunOut(c, ECB, Encrypt, iv, xs)[k] == c.enc(xs[k]) && RunOut(c, ECB, Decrypt, iv, xs)[k] == c.dec(xs[k])
    ensures var ys := RunOut(c, CBC, Encrypt, iv, xs); ys[k] == c.enc(Xor(InFront(iv, ys, k), xs[k]))
    ensures RunOut(c, CBC, Decrypt, iv, xs)[k] == Xor(c.dec(xs[k]), InFront(iv, xs, k))
    ensures var ys := RunOut(c, CFB, Encrypt, iv, xs); ys[k] == Xor(c.enc(InFront(iv, ys, k)), xs[k])
    ensures RunOut(c, CFB, Decrypt, iv, xs)[k] == Xor(c.enc(InFront(iv, xs, k)), xs[k])
    ensures RunOut(c, OFB, Encrypt, iv, xs)[k] == RunOut(c, OFB, Decrypt, iv, xs)[k] ==
            Xor(Repeated(c, iv, k + 1), xs[k])
  {
    hide CtrAdd, Xor, Cipher.Valid;
    OfbIv(c, Encrypt, iv, xs, k);
    OfbIv(c, Decrypt, iv, xs, k);
    if k > 0 {
      assert RunOut(c, CBC, Encrypt, iv, xs)[k - 1] == OutAt(c, CBC, Encrypt, iv, xs, k - 1);
      assert RunOut(c, CFB, Encrypt, iv, xs)[k - 1] == OutAt(c, CFB, Encrypt, iv, xs, k - 1);
    }
  }

  lemma {:induction false} OfbIv(c: Cipher, d: Dir, iv: Bytes, xs: seq<Bytes>, k: nat)
    requires c.Valid() && |iv| == c.size && Blocks(c, xs) && k <= |xs|
    ensures IvAt(c, OFB, d, iv, xs, k) == Repeated(c, iv, k)
  {
    hide CtrAdd, Xor, Cipher.Valid;
    if k > 0 {
      OfbIv(c, d, iv, xs, k - 1);
    }
  }
}
