// The functions of the Threefish files, working on their schedule and on the locals o0, o1, ...

module ThreefishCode {
  import opened Bytes
  import opened Words
  import opened Rotate
  import opened Threefish
  import opened BlockModes

  /** TF_PARITY xored with the first n key words, from left to right. */
  function Parity(k: seq<Word>, n: nat): Word
    requires n <= |k|
  {
    if n == 0 then TF_PARITY else XorW(Parity(k, n - 1), k[n - 1])
  }

  /** What set_key and set_tweak leave in the schedule. */
  function KeyWords(key: seq<Word>): (k: seq<Word>) {
    key + [Parity(key, |key|)]
  }

  function TweakWords(t0: Word, t1: Word): (t: seq<Word>) {
    [t0, t1, XorW(t0, t1)]
  }

  /** m(w1, w2, r, k0, k1) */
  method M(o: array<Word>, w1: nat, w2: nat, r: nat, k0: Word, k1: Word)
    requires w1 < o.Length && w2 < o.Length && w1 != w2
    modifies o
    ensures var (x, y) := Mix(old(o[w1]), old(o[w2]), r, k0, k1);
      o[..] == old(o[..])[w1 := x][w2 := y]
  {
    hide Add, XorW, Rol;
    o[w2] := Add(o[w2], k1);
    o[w1] := Add(o[w1], Add(o[w2], k0));
    o[w2] := XorW(Rol(o[w2], r), o[w1]);
  }

  /** u(w1, w2, r, k0, k1) */
  method U(o: array<Word>, w1: nat, w2: nat, r: nat, k0: Word, k1: Word)
    requires w1 < o.Length && w2 < o.Length && w1 != w2
    modifies o
    ensures var (x, y) := Unmix(old(o[w1]), old(o[w2]), r, k0, k1);
      o[..] == old(o[..])[w1 := x][w2 := y]
  {
    hide Add, Sub, XorW, Ror;
    o[w2] := Ror(XorW(o[w2], o[w1]), r);
    o[w1] := Sub(o[w1], Add(o[w2], k0));
    o[w2] := Sub(o[w2], k1);
  }

  /** The macro calls of one round. */
  method RunRound(mixing: bool, o: array<Word>, p: seq<nat>, rots: seq<nat>, keys: seq<Word>)
    requires RoundShape(o[..], p, rots, keys) && IsOrder(o.Length, p)
    modifies o
    ensures o[..] == Round(mixing, old(o[..]), p, rots, keys)
  {
    hide IsOrder, Mix, Unmix;
    ghost var start := o[..];
    var i := 0;
    while i < |rots|
      invariant i <= |rots|
      invariant RoundShape(start, p, rots, keys) && |start| == o.Length
      invariant o[..] == Calls(mixing, start, p, rots, keys, i)
    {
      OrderDistinct(o.Length, p, 2 * i, 2 * i + 1);
      if mixing {
        M(o, p[2 * i], p[2 * i + 1], rots[i], keys[2 * i], keys[2 * i + 1]);
      } else {
        U(o, p[2 * i], p[2 * i + 1], rots[i], keys[2 * i], keys[2 * i + 1]);
      }
      i := i + 1;
    }
  }

  class Context {
    const v: Variant
    var k: array<Word>
    var t: array<Word>

    constructor (variant: Variant)
      requires WellFormed(variant)
      ensures Valid() && v == variant && fresh(k) && fresh(t)
    {
      v := variant;
      k := new Word[variant.nw + 1];
      t := new Word[3];
    }

    ghost predicate Valid()
      reads this
    {
      WellFormed(v) && k.Length == v.nw + 1 && t.Length == 3 && k != t
    }

    ghost function Sched(): Schedule
      reads this, k, t
    {
      Schedule(k[..], t[..])
    }

    /** tf*_set_key */
    method SetKey(key: Bytes)
      requires Valid() && |key| == 8 * v.nw
      modifies k
      ensures Valid() && k[..] == KeyWords(LoadWords(key, v.nw))
    {
      hide Get64, XorW, WellFormed, IsOrder;
      var i := 0;
      while i < v.nw
        invariant i <= v.nw
        invariant forall j :: 0 <= j < i ==> k[j] == LoadWords(key, v.nw)[j]
      {
        k[i] := Get64(key[8 * i..8 * i + 8]);
        i := i + 1;
      }
      ghost var words := LoadWords(key, v.nw);
      var parity := TF_PARITY;
      i := 0;
      while i < v.nw
        invariant i <= v.nw
        invariant parity == Parity(words, i)
        invariant forall j :: 0 <= j < v.nw ==> k[j] == words[j]
      {
        parity := XorW(parity, k[i]);
        i := i + 1;
      }
      k[v.nw] := parity;
    }

    /** tf*_set_tweak */
    method SetTweak(tweak: Bytes)
      requires Valid() && |tweak| == 16
      modifies t
      ensures Valid() && t[..] == TweakWords(Get64(tweak[..8]), Get64(tweak[8..]))
    {
      hide Get64, XorW, WellFormed;
      t[0] := Get64(tweak[..8]);
      t[1] := Get64(tweak[8..]);
      t[2] := XorW(t[0], t[1]);
    }

    /** tf*_encrypt */
    method Encrypt(input: Bytes) returns (output: Bytes)
      requires Valid() && |input| == 8 * v.nw
      ensures output == StoreWords(Encrypted(v, Sched(), LoadWords(input, v.nw)))
    {
      hide WellFormed, LoadWords, StoreWords, Encrypted;
      var o := Load(input);
      EncryptRounds(o);
      output := AddLast(o, LoadWords(input, v.nw));
    }

    /** tf*_decrypt */
    method Decrypt(input: Bytes) returns (output: Bytes)
      requires Valid() && |input| == 8 * v.nw
      ensures output == StoreWords(Decrypted(v, Sched(), LoadWords(input, v.nw)))
    {
      hide WellFormed, LoadWords, StoreWords, Unkeyed;
      SameRows();
      var o := Load(input);
      SubFirst(o);
      DecryptRounds(o);
      output := Store(o);
    }

    lemma SameRows()
      requires Valid()
      ensures |v.decRows| == |v.encRows|
    {
      hide IsRow, IsOrder;
    }

    method Load(input: Bytes) returns (o: array<Word>)
      requires Valid() && |input| == 8 * v.nw
      ensures fresh(o) && o[..] == LoadWords(input, v.nw)
    {
      hide Get64, WellFormed;
      o := new Word[v.nw];
      var i := 0;
      while i < v.nw
        invariant i <= v.nw
        invariant forall j :: 0 <= j < i ==> o[j] == LoadWords(input, v.nw)[j]
      {
        o[i] := Get64(input[8 * i..8 * i + 8]);
        i := i + 1;
      }
    }

    method Store(o: array<Word>) returns (output: Bytes)
      ensures output == StoreWords(o[..])
    {
      hide Put64;
      output := [];
      var i := 0;
      while i < o.Length
        invariant i <= o.Length
        invariant output == StoreWords(o[..i])
      {
        output := output + Put64(o[i]);
        assert o[..i + 1][..i] == o[..i];
        i := i + 1;
      }
      assert o[..i] == o[..];
    }

    /** The stores at the end of tf*_encrypt. */
    method AddLast(o: array<Word>, ghost words: seq<Word>) returns (output: Bytes)
      requires Valid() && o.Length == v.nw && Input(v, Sched(), words)
      requires o[..] == Encrypting(v, Sched(), words, 4 * |v.encRows|)
      ensures output == StoreWords(Encrypted(v, Sched(), words))
    {
      hide Put64, LastAdd, Encrypting, IsRow, IsOrder, RowInRange;
      RowInRangeOf(v, |v.encRows|, v.lastRow);
      var s := Schedule(k[..], t[..]);
      ghost var e := Encrypted(v, s, words);
      output := [];
      var i := 0;
      while i < v.nw
        invariant i <= v.nw
        invariant output == StoreWords(e[..i])
      {
        output := output + Put64(LastAdd(v, s, i, o[i]));
        assert e[..i + 1][..i] == e[..i];
        i := i + 1;
      }
      assert e[..i] == e;
    }

    /** The subtractions at the start of tf*_decrypt. */
    method SubFirst(o: array<Word>)
      requires Valid() && o.Length == v.nw && o != k && o != t
      modifies o
      ensures Input(v, Sched(), old(o[..])) && o[..] == Unkeyed(v, Sched(), old(o[..]))
    {
      hide FirstSub, IsRow, IsOrder, RowInRange;
      RowInRangeOf(v, |v.encRows|, v.lastRow);
      var s := Schedule(k[..], t[..]);
      ghost var u := Unkeyed(v, s, o[..]);
      var i := 0;
      while i < v.nw
        invariant i <= v.nw
        invariant forall j :: 0 <= j < i ==> o[j] == u[j]
        invariant forall j :: i <= j < v.nw ==> o[j] == old(o[j])
      {
        o[i] := FirstSub(v, s, i, o[i]);
        i := i + 1;
      }
    }

    method EncryptRounds(o: array<Word>)
      requires Valid() && o.Length == v.nw && o != k && o != t
      modifies o
      ensures o[..] == Encrypting(v, Sched(), old(o[..]), 4 * |v.encRows|)
    {
      hide RowKey, IsRow, IsOrder, RowInRange, Round, RoundShape;
      ghost var start := o[..];
      var d := 0;
      while d < 4 * |v.encRows|
        invariant d <= 4 * |v.encRows|
        invariant Input(v, Sched(), start) && Sched() == old(Sched())
        invariant o[..] == Encrypting(v, Sched(), start, d)
      {
        RowUsable(v, d / 4);
        var keys := KeysFor(v.encRows[d / 4], d % 4);
        RoundFits(v, Sched(), o[..], d % 4, d % 8, keys);
        RunRound(true, o, v.orders[d % 4], v.rots[d % 8], keys);
        d := d + 1;
      }
    }

    method DecryptRounds(o: array<Word>)
      requires Valid() && o.Length == v.nw && o != k && o != t
      modifies o
      ensures o[..] == Decrypting(v, Sched(), old(o[..]), 4 * |v.decRows|)
    {
      hide RowKey, IsRow, IsOrder, RowInRange, Round, RoundShape;
      ghost var start := o[..];
      var d := 0;
      while d < 4 * |v.decRows|
        invariant d <= 4 * |v.decRows|
        invariant Input(v, Sched(), start) && Sched() == old(Sched())
        invariant o[..] == Decrypting(v, Sched(), start, d)
      {
        RowUsable(v, |v.encRows| - 1 - d / 4);
        var keys := KeysFor(v.decRows[d / 4], 3 - d % 4);
        RoundFits(v, Sched(), o[..], 3 - d % 4, 7 - d % 8, keys);
        RunRound(false, o, v.orders[3 - d % 4], v.rots[7 - d % 8], keys);
        d := d + 1;
      }
    }

    /** The last two arguments of the macro calls of round q. */
    method KeysFor(row: seq<nat>, q: nat) returns (keys: seq<Word>)
      requires Valid() && RowInRange(v, row)
      ensures keys == RoundKeys(v, Sched(), row, q)
    {
      hide RowKey, WellFormed;
      var s := Schedule(k[..], t[..]);
      keys := seq(v.nw, i requires 0 <= i < v.nw && Fits(v, s) && RowInRange(v, row) =>
        if q == 0 then RowKey(v, s, row, i) else WordOf(0));
    }
  }

  // ---------------------------------------------------------------- Threefish as a block cipher

  ghost function EncryptBlock(v: Variant, sch: Schedule, x: Bytes): (y: Bytes)
    requires WellFormed(v) && Fits(v, sch)
  {
    if |x| == 8 * v.nw then StoreWords(Encrypted(v, sch, LoadWords(x, v.nw))) else x
  }

  ghost function DecryptBlock(v: Variant, sch: Schedule, x: Bytes): (y: Bytes)
    requires WellFormed(v) && Fits(v, sch)
  {
    if |x| == 8 * v.nw then StoreWords(Decrypted(v, sch, LoadWords(x, v.nw))) else x
  }

  lemma BlockRoundTrip(v: Variant, sch: Schedule, x: Bytes)
    requires WellFormed(v) && Fits(v, sch) && |x| == 8 * v.nw
    ensures DecryptBlock(v, sch, EncryptBlock(v, sch, x)) == x
  {
    hide LoadWords, StoreWords, Encrypted, Decrypted, WellFormed;
    var o := LoadWords(x, v.nw);
    LoadStoreWords(Encrypted(v, sch, o));
    Threefish.DecryptInvertsEncrypt(v, sch, o);
    StoreLoadWords(x, v.nw);
  }

  ghost function AsCipher(v: Variant, sch: Schedule): Cipher
    requires WellFormed(v) && Fits(v, sch)
  {
    Cipher(8 * v.nw,
           x requires WellFormed(v) && Fits(v, sch) => EncryptBlock(v, sch, x),
           x requires WellFormed(v) && Fits(v, sch) => DecryptBlock(v, sch, x))
  }

  /** A scheduled Threefish is an invertible block cipher, so every theorem about the modes
      applies to it. */
  lemma ThreefishIsCipher(v: Variant, sch: Schedule)
    requires WellFormed(v) && Fits(v, sch)
    ensures AsCipher(v, sch).Valid() && AsCipher(v, sch).Invertible()
  {
    hide EncryptBlock, DecryptBlock, IsRow, IsOrder;
    var c := AsCipher(v, sch);
    forall x: Bytes | |x| == c.size
      ensures |c.enc(x)| == c.size && |c.dec(x)| == c.size && c.dec(c.enc(x)) == x
    {
      BlockSizes(v, sch, x);
      BlockRoundTrip(v, sch, x);
    }
  }

  lemma BlockSizes(v: Variant, sch: Schedule, x: Bytes)
    requires WellFormed(v) && Fits(v, sch) && |x| == 8 * v.nw
    ensures |EncryptBlock(v, sch, x)| == |x| && |DecryptBlock(v, sch, x)| == |x|
  {
    hide LoadWords, StoreWords, Encrypted, Decrypted, WellFormed;
  }

  // ---------------------------------------------------------------- the parity words

  /** c xored with the first n words. */
  function XorFrom(c: Word, k: seq<Word>, n: nat): Word
    requires n <= |k|
  {
    if n == 0 then c else XorW(XorFrom(c, k, n - 1), k[n - 1])
  }

  /** All words of an expanded key xor to the parity constant, all tweak words to zero. */
  lemma ExpandedParity(key: seq<Word>, t0: Word, t1: Word)
    ensures XorFrom(0x1bd11bdaa9fc1a22, KeyWords(key), |key| + 1) == 0
    ensures XorFrom(0, TweakWords(t0, t1), 3) == 0
  {
    hide XorW;
    ParityPrefix(key, KeyWords(key), |key|);
    XorWSelf(Parity(key, |key|));
    TweakParity(t0, t1);
  }

  lemma {:induction false} ParityPrefix(a: seq<Word>, b: seq<Word>, n: nat)
    requires n <= |a| <= |b| && b[..|a|] == a
    ensures Parity(a, n) == XorFrom(0x1bd11bdaa9fc1a22, b, n)
  {
    if n > 0 {
      ParityPrefix(a, b, n - 1);
      assert a[n - 1] == b[..|a|][n - 1];
    }
  }

  lemma TweakParity(t0: Word, t1: Word)
    ensures XorFrom(0, TweakWords(t0, t1), 3) == 0
  {
    hide XorW;
    var t := TweakWords(t0, t1);
    assert XorFrom(0, t, 1) == XorW(0, t0) && XorFrom(0, t, 2) == XorW(XorFrom(0, t, 1), t1);
    assert XorFrom(0, t, 3) == XorW(XorFrom(0, t, 2), t[2]);
    XorWZero(t0);
    XorWSelf(XorW(t0, t1));
  }

  lemma XorWZero(a: Word)
    ensures XorW(0, a) == a
  {
  }

  lemma XorWSelf(a: Word)
    ensures XorW(a, a) == 0
  {
  }
}
