// Byte strings and the exclusive-or helper of src/utils/xor.h.

/** uint8_t values and the numbers they stand for. */
module Octets {

  type Byte = bv8

  /** The number a byte stands for. */
  function ValOf(b: Byte): (n: nat)
    ensures n < 256
  {
    b as nat
  }

  /** The conversion of a number to uint8_t, wrapping at 256. */
  function ByteOf(n: nat): Byte {
    if n == 0 then 0 else ByteOf(n - 1) + 1
  }

  lemma ValOfNext(b: Byte)
    requires b != 0
    ensures ValOf(b) == ValOf(b - 1) + 1
  {
  }

  lemma ValOfZero(b: Byte)
    ensures ValOf(b) == 0 <==> b == 0
  {
  }

  lemma {:induction false} ByteRoundTrip(n: nat)
    requires n < 256
    ensures ValOf(ByteOf(n)) == n
  {
    hide ValOf;
    if n == 0 {
      ValOfZero(0);
    } else {
      ByteRoundTrip(n - 1);
      var p := ByteOf(n - 1);
      ValOfLast(p);
      ValOfNext(p + 1);
    }
  }

  lemma ValOfLast(p: Byte)
    requires ValOf(p) < 255
    ensures p + 1 != 0 && (p + 1) - 1 == p
  {
  }

  lemma {:induction false} ByteOfVal(b: Byte)
    ensures ByteOf(ValOf(b)) == b
    decreases ValOf(b)
  {
    hide ValOf;
    ValOfZero(b);
    if b != 0 {
      ValOfNext(b);
      ByteOfVal(b - 1);
      assert (b - 1) + 1 == b;
    }
  }
}

module Bytes {
  import Octets

  type Byte = Octets.Byte
  type Bytes = seq<Byte>

  datatype Option<+T> = None | Some(value: T)

  function Zeros(n: nat): (r: Bytes)
    ensures |r| == n && forall k :: 0 <= k < n ==> r[k] == 0
  {
    seq(n, _ => 0)
  }

  function Xor8(a: Byte, b: Byte): Byte {
    a ^ b
  }

  /** Byte-wise exclusive or of two equally long strings. */
  function Xor(a: Bytes, b: Bytes): (r: Bytes)
    requires |a| == |b|
    ensures |r| == |a|
    ensures forall k :: 0 <= k < |r| ==> r[k] == Xor8(a[k], b[k])
  {
    seq(|a|, k requires 0 <= k < |a| => Xor8(a[k], b[k]))
  }

  lemma Xor8Laws(a: Byte, b: Byte)
    ensures Xor8(Xor8(a, b), b) == a
    ensures Xor8(a, Xor8(a, b)) == b
    ensures Xor8(a, b) == Xor8(b, a)
    ensures Xor8(a, 0) == a
  {
  }

  lemma XorCancels(a: Bytes, b: Bytes)
    requires |a| == |b|
    ensures Xor(a, Xor(a, b)) == b
    ensures Xor(Xor(a, b), b) == a
  {
    hide Xor8;
    forall k | 0 <= k < |a|
      ensures Xor(a, Xor(a, b))[k] == b[k] && Xor(Xor(a, b), b)[k] == a[k]
    {
      Xor8Laws(a[k], b[k]);
    }
  }

  lemma XorCommutes(a: Bytes, b: Bytes)
    requires |a| == |b|
    ensures Xor(a, b) == Xor(b, a)
  {
    hide Xor8;
    forall k | 0 <= k < |a|
      ensures Xor(a, b)[k] == Xor(b, a)[k]
    {
      Xor8Laws(a[k], b[k]);
    }
  }

  lemma XorZeros(a: Bytes)
    ensures Xor(a, Zeros(|a|)) == a
  {
    hide Xor8;
    forall k | 0 <= k < |a|
      ensures Xor(a, Zeros(|a|))[k] == a[k]
    {
      Xor8Laws(a[k], 0);
    }
  }

  /** Byte k of the buffer after xorb_64(o, i0, i1, l): the word loop covers the first
      l - l % 8 bytes, then the byte loop covers l % 8 bytes starting at offset 0 again. */
  function XorB64At(o: Bytes, i0: Bytes, i1: Bytes, inPlace: bool, l: nat, k: nat): Byte
    requires l <= |o| && l <= |i0| && l <= |i1| && k < |o|
  {
    var once := if k < l - l % 8 then Xor8(i0[k], i1[k]) else o[k];
    if k < l % 8 then Xor8(if inPlace then once else i0[k], i1[k]) else once
  }

  /** xorb_64 with `o` equal to `i0` or disjoint from both inputs. */
  method XorB64(o: array<Byte>, i0: array<Byte>, i1: array<Byte>, l: nat)
    requires l <= o.Length && l <= i0.Length && l <= i1.Length
    requires o != i1
    modifies o
    ensures forall k :: 0 <= k < o.Length ==>
      o[k] == XorB64At(old(o[..]), old(i0[..]), i1[..], o == i0, l, k)
  {
    hide Xor8;
    var r := l % 8;
    XorWords(o, i0, i1, l / 8);
    ghost var mid := o[..];
    var b := r;
    while b > 0
      invariant 0 <= b <= r
      invariant forall k :: 0 <= k < b ==> o[k] == mid[k]
      invariant forall k :: b <= k < r ==> o[k] == Xor8(if o == i0 then mid[k] else old(i0[k]), i1[k])
      invariant forall k :: r <= k < o.Length ==> o[k] == mid[k]
      invariant o != i0 ==> i0[..] == old(i0[..])
    {
      b := b - 1;
      o[b] := Xor8(i0[b], i1[b]);
    }
  }

  /** The counting-down loop over 64-bit words: one word is read, xored and stored at a time. */
  method XorWords(o: array<Byte>, i0: array<Byte>, i1: array<Byte>, words: nat)
    requires 8 * words <= o.Length && 8 * words <= i0.Length && 8 * words <= i1.Length
    requires o != i1
    modifies o
    ensures forall k :: 0 <= k < 8 * words ==> o[k] == Xor8(old(i0[k]), i1[k])
    ensures forall k :: 8 * words <= k < o.Length ==> o[k] == old(o[k])
  {
    hide Xor8;
    var w := words;
    while w > 0
      invariant 0 <= w <= words
      invariant forall k :: 0 <= k < 8 * w ==> o[k] == old(o[k])
      invariant forall k :: 8 * w <= k < 8 * words ==> o[k] == Xor8(old(i0[k]), i1[k])
      invariant forall k :: 8 * words <= k < o.Length ==> o[k] == old(o[k])
      invariant o != i0 ==> i0[..] == old(i0[..])
    {
      w := w - 1;
      forall k | 8 * w <= k < 8 * w + 8 {
        o[k] := Xor8(i0[k], i1[k]);
      }
    }
  }

  /** xorb_64 xors all l bytes, whatever the buffers hold, exactly when the length is a
      multiple of 8 or there is no whole word at all. */
  lemma XorB64Exact(l: nat, inPlace: bool)
    ensures (forall o: Bytes, i0: Bytes, i1: Bytes, k: nat |
               |o| == |i0| == |i1| == l && (inPlace ==> o == i0) && k < l ::
               XorB64At(o, i0, i1, inPlace, l, k) == Xor8(i0[k], i1[k]))
         <==> (l % 8 == 0 || l < 8)
  {
    if l % 8 != 0 && l >= 8 {
      var o, i1 := Zeros(l), seq(l, _ => 1 as Byte);
      assert XorB64At(o, o, i1, inPlace, l, l - 1) == 0;
      assert Xor8(o[l - 1], i1[l - 1]) == 1;
    }
  }

  // ---------------------------------------------------------------- lengths and copies

  /** The length of n blocks. */
  function Times(n: nat, size: nat): nat {
    if n == 0 then 0 else Times(n - 1, size) + size
  }

  lemma {:induction false} TimesIsProduct(n: nat, size: nat)
    ensures Times(n, size) == n * size
  {
    if n > 0 {
      TimesIsProduct(n - 1, size);
      assert n * size == (n - 1) * size + size;
    }
  }

  /** C's / and % cut a length into whole blocks and a rest. */
  lemma LengthSplit(bytes: nat, size: nat)
    requires size > 0
    ensures bytes == Times(bytes / size, size) + bytes % size
    ensures bytes % size < size
  {
    TimesIsProduct(bytes / size, size);
  }

  /** memcpy of data over the bytes of block from offset off on. */
  function Patch(block: Bytes, off: nat, data: Bytes): (r: Bytes)
    requires off + |data| <= |block|
    ensures |r| == |block| && r[off..off + |data|] == data
  {
    block[..off] + data + block[off + |data|..]
  }

  /** memcpy into a buffer. */
  method CopyInto(buffer: array<Byte>, off: nat, data: Bytes)
    requires off + |data| <= buffer.Length
    modifies buffer
    ensures buffer[..] == Patch(old(buffer[..]), off, data)
  {
    var i := 0;
    while i < |data|
      invariant i <= |data|
      invariant forall k :: 0 <= k < buffer.Length ==>
        buffer[k] == if off <= k < off + i then data[k - off] else old(buffer[k])
    {
      buffer[off + i] := data[i];
      i := i + 1;
    }
  }

  /** The bytes of a run of calls, one after the other. */
  function Concat(pieces: seq<Bytes>): Bytes {
    if pieces == [] then [] else Concat(pieces[..|pieces| - 1]) + pieces[|pieces| - 1]
  }
}
