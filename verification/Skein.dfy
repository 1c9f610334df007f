// struct skein_t and its functions (src/hash/skein/skein_common.c) over an abstract tweakable
// block cipher. The digest is Skein of the concatenated messages, however they were split.

module Skein {
  import opened Bytes
  import opened Words
  import opened SkeinSpec

  lemma GetOfXor(s: Bytes, t: Bytes, u: Bytes)
    requires |s| == |t| == |u| == 8
    requires u[0] == s[0] ^ t[0] && u[1] == s[1] ^ t[1] && u[2] == s[2] ^ t[2] && u[3] == s[3] ^ t[3]
    requires u[4] == s[4] ^ t[4] && u[5] == s[5] ^ t[5] && u[6] == s[6] ^ t[6] && u[7] == s[7] ^ t[7]
    ensures Get64(u) == XorW(Get64(s), Get64(t))
  {
  }

  lemma Xor64(s: Bytes, t: Bytes)
    requires |s| == |t| == 8
    ensures Put64(XorW(Get64(s), Get64(t))) == Xor(s, t)
  {
    hide Get64, Put64, XorW;
    GetOfXor(s, t, Xor(s, t));
    PutGet64(Xor(s, t));
  }

  /** feed_forward64 over n words. */
  method FeedForward64(input: Bytes, output: array<Byte>, n: nat)
    requires |input| == output.Length == 8 * n
    modifies output
    ensures output[..] == Xor(old(output[..]), input)
  {
    hide Get64, Put64, XorW, Xor8, Xor;
    ghost var start := output[..];
    var i := 0;
    while i < n
      invariant i <= n
      invariant forall k :: 0 <= k < 8 * i ==> output[k] == Xor(start, input)[k]
      invariant forall k :: 8 * i <= k < 8 * n ==> output[k] == start[k]
    {
      assert output[8 * i..8 * i + 8] == start[8 * i..8 * i + 8];
      Xor64(start[8 * i..8 * i + 8], input[8 * i..8 * i + 8]);
      XorSlice(start, input, 8 * i);
      CopyInto(output, 8 * i, Put64(XorW(Get64(output[8 * i..8 * i + 8]), Get64(input[8 * i..8 * i + 8]))));
      assert output[8 * i..8 * i + 8] == Xor(start, input)[8 * i..8 * i + 8];
      i := i + 1;
    }
  }

  lemma XorSlice(a: Bytes, b: Bytes, o: nat)
    requires |a| == |b| && o + 8 <= |a|
    ensures Xor(a[o..o + 8], b[o..o + 8]) == Xor(a, b)[o..o + 8]
  {
    hide Xor8;
  }

  class Context {
    const c: Tweakable
    var pos: Word
    var flags: Word
    var state: array<Byte>
    var partial: array<Byte>
    var partialCount: nat
    var outputBits: nat
    /** The bytes hashed since the last Init. */
    ghost var history: Bytes

    ghost predicate Shape()
      reads this
    {
      && c.Valid() && state.Length == partial.Length == c.size && state != partial
      && partialCount <= c.size && outputBits < 0x1_0000_0000
    }

    ghost function Now(): Running
      reads this, state
    {
      Running(state[..], pos, flags)
    }

    /** The context has compressed and buffered exactly what its history calls for. */
    ghost predicate Absorbing()
      reads this, state, partial
    {
      && Shape()
      && (Now(), partial[..partialCount]) == Absorb(c, Start(ConfigChain(c, outputBits), Msg), history)
    }

    constructor (cipher: Tweakable)
      requires cipher.Valid()
      ensures Shape() && c == cipher && fresh(state) && fresh(partial)
    {
      c := cipher;
      pos := 0;
      flags := 0;
      partialCount := 0;
      outputBits := 0;
      state := new Byte[cipher.size];
      partial := new Byte[cipher.size];
    }

    /** The body of the loop in skein_compression. */
    method CompressOne(block: Bytes, add: nat)
      requires Shape() && |block| == c.size
      modifies this`pos, this`flags, state
      ensures Shape() && Now() == Step(c, old(Now()), block, add)
    {
      hide Add, WordOf, Put64, ClearFirst;
      pos := Add(pos, WordOf(add));
      var out := c.enc(state[..], Put64(pos) + Put64(flags), block);
      CopyInto(state, 0, out);
      assert state[..] == out;
      FeedForward64(block, state, c.size / 8);
      flags := ClearFirst(flags);
    }

    /** skein_compression */
    method Compress(blocks: Bytes, n: nat, add: nat)
      requires Shape() && n >= 1 && |blocks| == Times(n, c.size)
      modifies this`pos, this`flags, state
      ensures Shape() && Now() == Steps(c, old(Now()), blocks, n, add)
    {
      hide Step, Tweakable.Valid;
      var rest, left := blocks, n;
      while left > 0
        invariant Shape() && Fits(c, Now()) && |rest| == Times(left, c.size)
        invariant Steps(c, Now(), rest, left, add) == Steps(c, old(Now()), blocks, n, add)
      {
        CompressOne(rest[..c.size], add);
        rest := rest[c.size..];
        left := left - 1;
      }
    }

    /** memset of a buffer to zero from an offset on. */
    method Clear(buffer: array<Byte>, from: nat)
      requires from <= buffer.Length
      modifies buffer
      ensures buffer[..] == old(buffer[..from]) + Zeros(buffer.Length - from)
    {
      CopyInto(buffer, from, Zeros(buffer.Length - from));
    }

    /** skein_init: whatever was hashed before is forgotten. */
    method Init(hashOutputBits: nat)
      requires Shape() && hashOutputBits < 0x1_0000_0000
      modifies this, state, partial
      ensures state == old(state) && partial == old(partial)
      ensures Absorbing() && history == [] && outputBits == hashOutputBits && partialCount == 0
      ensures Now() == Start(ConfigChain(c, hashOutputBits), Msg) && partial[..] == Zeros(c.size)
    {
      hide Tweakable.Valid, Step, Flags, Ubi, ConfigString, WordOf;
      ValidSize(c);
      pos, flags, partialCount := 0, 0, 0;
      Clear(state, 0);
      Clear(partial, 0);
      outputBits := hashOutputBits;
      ConfigFlags();
      flags := FLAG_FIRST | TYPE_CFG | FLAG_FINAL;
      var config := ConfigBlock(hashOutputBits);
      assert state[..] == Zeros(c.size);
      CompressOne(config, 32);
      OneBlock(c, Zeros(c.size), ConfigString(hashOutputBits), Cfg);
      pos := 0;
      flags := FLAG_FIRST | TYPE_MSG;
      history := [];
    }

    /** cfg_block with version and output length filled in. */
    function ConfigBlock(bits: nat): (r: Bytes)
      requires c.Valid()
      ensures |ConfigString(bits)| == 32
      ensures r == Pad(ConfigString(bits), c.size)
    {
      hide Put64, WordOf, LeBytes;
      VersionBytes();
      PutNumber(bits);
      Put64(VERSION) + Put64(WordOf(bits)) + Zeros(c.size - 16)
    }

    static lemma ConfigFlags()
      ensures FLAG_FIRST | TYPE_CFG | FLAG_FINAL == Flags(Cfg, true, true)
      ensures FLAG_FIRST | TYPE_MSG == Flags(Msg, true, false)
      ensures FLAG_FIRST | TYPE_OUT | FLAG_FINAL == Flags(Out, true, true)
    {
    }

    /** Complete the partial block and compress it. */
    method Fill(message: Bytes) returns (rest: Bytes)
      requires Shape() && partialCount > 0 && |message| + partialCount > c.size
      modifies this`pos, this`flags, this`partialCount, state, partial
      ensures Shape() && partialCount == 0
      ensures rest == message[c.size - old(partialCount)..]
      ensures Now() == Step(c, old(Now()), old(partial[..partialCount]) + message[..c.size - old(partialCount)], c.size)
    {
      hide Tweakable.Valid, Step;
      rest := message;
      var n := c.size - partialCount;
      ghost var kept := partial[..partialCount];
      if n > 0 {
        CopyInto(partial, partialCount, message[..n]);
        rest := message[n..];
        partialCount := partialCount + n;
      }
      assert partial[..] == kept + message[..n];
      CompressOne(partial[..], c.size);
      partialCount := 0;
    }

    /** All further whole blocks except the last. */
    method Bulk(message: Bytes) returns (rest: Bytes)
      requires Shape() && |message| > c.size
      modifies this`pos, this`flags, state
      ensures Shape() && (Now(), rest) == Absorb(c, old(Now()), message)
    {
      hide Tweakable.Valid, Step, Steps, Absorb;
      ValidSize(c);
      var n := (|message| - 1) / c.size;
      LengthSplit(|message| - 1, c.size);
      AbsorbBulk(c, Now(), message, n);
      AtLeastOne(|message| - 1, c.size);
      Compress(message[..Times(n, c.size)], n, c.size);
      rest := message[Times(n, c.size)..];
    }

    static lemma AtLeastOne(n: nat, size: nat)
      requires n >= size > 0
      ensures n / size >= 1
    {
      LengthSplit(n, size);
    }

    /** skein_update */
    method Update(message: Bytes)
      requires Absorbing()
      modifies this, state, partial
      ensures state == old(state) && partial == old(partial) && outputBits == old(outputBits)
      ensures Absorbing() && history == old(history) + message
    {
      hide Tweakable.Valid, Step, ConfigChain, Start, Absorb;
      ghost var start := Start(ConfigChain(c, outputBits), Msg);
      StartFits(c, outputBits);
      AbsorbAppend(c, start, history, message);
      var m := CompressWhole(message);
      if |m| > 0 {
        Keep(m);
      } else {
        assert partial[..partialCount] + m == partial[..partialCount];
      }
      history := history + message;
    }

    static lemma StartFits(c: Tweakable, bits: nat)
      requires c.Valid()
      ensures Fits(c, Start(ConfigChain(c, bits), Msg))
    {
      hide Tweakable.Valid, ConfigChain;
    }

    /** The first half of skein_update: compress what is known not to end the message. */
    method CompressWhole(message: Bytes) returns (m: Bytes)
      requires Shape()
      modifies this`pos, this`flags, this`partialCount, state, partial
      ensures Shape() && |m| + partialCount <= c.size
      ensures (Now(), partial[..partialCount] + m) == Absorb(c, old(Now()), old(partial[..partialCount]) + message)
    {
      hide Tweakable.Valid, Step, Absorb;
      ghost var u, kept := Now(), partial[..partialCount];
      m := message;
      if |m| + partialCount > c.size {
        if partialCount > 0 {
          m := Fill(message);
          AbsorbHead(c, u, kept, message);
        } else {
          assert kept + message == message;
        }
        assert Absorb(c, u, kept + message) == Absorb(c, Now(), m);
        if |m| > c.size {
          m := Bulk(m);
        } else {
          AbsorbShort(c, Now(), m);
        }
        assert partial[..partialCount] + m == m;
        AbsorbSize(c, u, kept + message);
      } else {
        AbsorbShort(c, u, kept + message);
      }
    }

    static lemma AbsorbShort(c: Tweakable, u: Running, m: Bytes)
      requires Fits(c, u) && |m| <= c.size
      ensures Absorb(c, u, m) == (u, m)
    {
    }

    static lemma AbsorbSize(c: Tweakable, u: Running, m: Bytes)
      requires Fits(c, u)
      ensures |Absorb(c, u, m).1| <= c.size
    {
      hide Tweakable.Valid, Absorb;
    }

    /** Buffer what is left. */
    method Keep(message: Bytes)
      requires Shape() && |message| + partialCount <= c.size
      modifies this`partialCount, partial
      ensures Shape() && partial[..partialCount] == old(partial[..partialCount]) + message
    {
      hide Tweakable.Valid;
      CopyInto(partial, partialCount, message);
      partialCount := partialCount + |message|;
    }

    static lemma AbsorbHead(c: Tweakable, u: Running, kept: Bytes, m: Bytes)
      requires Fits(c, u) && |kept| <= c.size < |kept| + |m|
      ensures Absorb(c, u, kept + m) ==
              Absorb(c, Step(c, u, kept + m[..c.size - |kept|], c.size), m[c.size - |kept|..])
    {
      hide Tweakable.Valid, Step;
      assert (kept + m)[..c.size] == kept + m[..c.size - |kept|];
      assert (kept + m)[c.size..] == m[c.size - |kept|..];
    }

    /** Compress the rest of the message, zero padded. */
    method LastBlock()
      requires Absorbing()
      modifies this`pos, this`flags, state, partial
      ensures Shape()
      ensures state[..] == Ubi(c, ConfigChain(c, outputBits), history, Msg)
    {
      hide Tweakable.Valid, Step, ConfigChain, Ubi, Absorb, Flags;
      ConfigFlags();
      AbsorbThenLast(c, ConfigChain(c, outputBits), history, Msg);
      ghost var rest := partial[..partialCount];
      flags := SetFinal(flags);
      if partialCount < c.size {
        Clear(partial, partialCount);
      }
      assert partial[..] == Pad(rest, c.size);
      CompressOne(partial[..], partialCount);
    }

    /** One turn of the output loop up to the copy. */
    method OutputBlock(i: nat, ghost g: Bytes)
      requires Shape() && state[..] == g && partial[8..] == Zeros(c.size - 8)
      modifies this`pos, this`flags, state, partial
      ensures Shape() && partial[8..] == Zeros(c.size - 8)
      ensures state[..] == Ubi(c, g, LeBytes(i % TWO64, 8), Out)
    {
      hide Tweakable.Valid, Step, Ubi, Flags, Put64, WordOf, LeBytes;
      ConfigFlags();
      ValidSize(c);
      pos := 0;
      flags := FLAG_FIRST | TYPE_OUT | FLAG_FINAL;
      var number := Put64(WordOf(i));
      PutNumber(i);
      CopyInto(partial, 0, number);
      assert partial[8..] == Zeros(c.size - 8);
      assert partial[..] == Pad(number, c.size);
      OneBlock(c, g, number, Out);
      CompressOne(partial[..], 8);
    }

    /** skein_final */
    method Final() returns (digest: Bytes)
      requires Absorbing()
      modifies this, state, partial
      ensures state == old(state) && partial == old(partial) && Shape()
      ensures digest == SkeinSpec.Skein(c, outputBits, old(history)) && outputBits == old(outputBits)
    {
      hide Tweakable.Valid, ConfigChain, Ubi, Put64, WordOf, Step;
      LastBlock();
      var bytes := DigestBytes(outputBits);
      Clear(partial, 0);
      partialCount := 0;
      var finalKey := state[..];
      digest := OutputLoop(bytes, finalKey);
    }

    static lemma OutputStep(c: Tweakable, g: Bytes, i: nat, n: nat)
      requires c.Valid() && |g| == c.size && n > 0
      ensures |Ubi(c, g, LeBytes(i % TWO64, 8), Out)| == c.size > 0
      ensures var k := Min(n, c.size);
        Output(c, g, i, n) == Ubi(c, g, LeBytes(i % TWO64, 8), Out)[..k] + Output(c, g, i + 1, n - k)
    {
      hide Tweakable.Valid, Ubi, LeBytes;
      ValidSize(c);
      var block := Ubi(c, g, LeBytes(i % TWO64, 8), Out);
      assert block[..c.size] == block;
      if n <= c.size {
        assert block[..n] + [] == block[..n];
      }
    }

    method OutputLoop(bytes: nat, finalKey: Bytes) returns (digest: Bytes)
      requires Shape() && state[..] == finalKey && partial[..] == Zeros(c.size)
      modifies this`pos, this`flags, state, partial
      ensures Shape() && digest == Output(c, finalKey, 0, bytes)
    {
      hide Tweakable.Valid, Ubi, Put64, WordOf, LeBytes, Output;
      ValidSize(c);
      digest := [];
      var i := 0;
      ghost var left := bytes;
      while Times(i, c.size) < bytes
        invariant Shape() && state[..] == finalKey && partial[8..] == Zeros(c.size - 8)
        invariant left == (if Times(i, c.size) < bytes then bytes - Times(i, c.size) else 0)
        invariant digest + Output(c, finalKey, i, left) == Output(c, finalKey, 0, bytes)
        decreases bytes - Times(i, c.size)
      {
        OutputStep(c, finalKey, i, left);
        OutputBlock(i, finalKey);
        var remaining := Min(bytes - Times(i, c.size), c.size);
        digest := digest + state[..remaining];
        CopyInto(state, 0, finalKey);
        i := i + 1;
        left := left - remaining;
      }
      assert Output(c, finalKey, i, 0) == [];
    }

    /** The hash API: one init, any number of updates, one final. */
    method Hash(hashOutputBits: nat, pieces: seq<Bytes>) returns (digest: Bytes)
      requires Shape() && hashOutputBits < 0x1_0000_0000
      modifies this, state, partial
      ensures digest == SkeinSpec.Skein(c, hashOutputBits, Concat(pieces))
    {
      hide SkeinSpec.Skein, Tweakable.Valid, ConfigChain, Absorbing;
      Init(hashOutputBits);
      var i := 0;
      while i < |pieces|
        invariant i <= |pieces|
        invariant Absorbing() && outputBits == hashOutputBits && history == Concat(pieces[..i])
        invariant state == old(state) && partial == old(partial)
      {
        Update(pieces[i]);
        assert pieces[..i + 1][..i] == pieces[..i];
        i := i + 1;
      }
      assert pieces[..i] == pieces;
      digest := Final();
    }
  }
}
