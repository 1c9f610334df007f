// The ARC4 generator of src/streamcipher/arc4.c.

module Arc4 {
  import opened Octets
  import opened Bytes

  /** The context as a value: the table and the two uint8_t indices. */
  datatype State = State(m: seq<nat>, x: nat, y: nat)

  predicate Table(m: seq<nat>) {
    |m| == 256 && forall k :: 0 <= k < 256 ==> m[k] < 256
  }

  predicate Shaped(s: State) {
    Table(s.m) && s.x < 256 && s.y < 256
  }

  /** Every byte value occurs in the table, exactly once. */
  ghost predicate IsPermutation(m: seq<nat>) {
    && Table(m)
    && (forall i, j :: 0 <= i < j < 256 ==> m[i] != m[j])
    && (forall v: nat :: v < 256 ==> v in m)
  }

  function Swap(m: seq<nat>, i: nat, j: nat): (r: seq<nat>)
    requires Table(m) && i < 256 && j < 256
    ensures Table(r)
  {
    m[i := m[j]][j := m[i]]
  }

  lemma SwapKeepsPermutation(m: seq<nat>, i: nat, j: nat)
    requires IsPermutation(m) && i < 256 && j < 256
    ensures IsPermutation(Swap(m, i, j))
  {
    var r := Swap(m, i, j);
    forall v: nat | v < 256 ensures v in r {
      assert v in m;
      var k :| 0 <= k < |m| && m[k] == v;
      assert r[if k == i then j else if k == j then i else k] == v;
    }
    forall a, b | 0 <= a < b < 256 ensures r[a] != r[b] {
    }
  }

  function Identity(): (m: seq<nat>)
    ensures Table(m)
  {
    seq(256, k => k)
  }

  lemma IdentityIsPermutation()
    ensures IsPermutation(Identity())
  {
    forall v: nat | v < 256 ensures v in Identity() {
      assert Identity()[v] == v;
    }
  }

  // ---------------------------------------------------------------- key schedule

  /** The key schedule after i rounds: table, key index a and running index b. */
  datatype Schedule = Schedule(m: seq<nat>, a: nat, b: nat)

  function KeyBytes(keybits: nat): nat {
    (keybits + 7) / 8
  }

  /** The running index b of the next round. */
  function NextB(k: Byte, cell: nat, b: nat): (r: nat)
    ensures r < 256
  {
    (ValOf(k) + cell + b) % 256
  }

  /** The key index of the next round, stored in a uint8_t. */
  function NextA(a: nat, len: nat): (r: nat)
    requires a < len
    ensures r < len && r < 256
  {
    var next := (a + 1) % len;
    next % 256
  }

  function ScheduleAt(key: Bytes, len: nat, i: nat): (s: Schedule)
    requires 0 < len <= |key| && i <= 256
    ensures Table(s.m) && s.b < 256 && s.a < 256 && s.a < len
  {
    if i == 0 then Schedule(Identity(), 0, 0)
    else
      var s := ScheduleAt(key, len, i - 1);
      var b := NextB(key[s.a], s.m[i - 1], s.b);
      Schedule(Swap(s.m, i - 1, b), NextA(s.a, len), b)
  }

  /** The key bytes come round in turn; an index that is a uint8_t reaches the first 256 only. */
  function KeyIndex(len: nat, i: nat): (a: nat)
    requires 0 < len
    ensures a < len
  {
    i % if len < 256 then len else 256
  }

  /** The key bytes of the first i rounds and the table cells they meet, all added up. */
  function KeySum(key: Bytes, len: nat, i: nat): nat
    requires 0 < len <= |key| && i <= 256
  {
    if i == 0 then 0
    else KeySum(key, len, i - 1) + ValOf(key[KeyIndex(len, i - 1)]) + ScheduleAt(key, len, i - 1).m[i - 1]
  }

  lemma {:induction false} ScheduleIndices(key: Bytes, len: nat, i: nat)
    requires 0 < len <= |key| && i <= 256
    ensures ScheduleAt(key, len, i).b == KeySum(key, len, i) % 256
    ensures i < 256 ==> ScheduleAt(key, len, i).a == KeyIndex(len, i)
  {
    hide Swap, KeyIndex, NextA, NextB, ValOf;
    KeyIndexFirst(len);
    if i > 0 {
      ScheduleIndices(key, len, i - 1);
      var s := ScheduleAt(key, len, i - 1);
      SumNext(KeySum(key, len, i - 1), key[s.a], s.m[i - 1], s.b);
      if i < 256 {
        NextKeyIndex(len, i - 1);
      }
    }
  }

  lemma SumNext(sum: nat, k: Byte, cell: nat, b: nat)
    requires b == sum % 256
    ensures NextB(k, cell, b) == (sum + ValOf(k) + cell) % 256
  {
    AddMod(sum, ValOf(k) + cell);
  }

  lemma KeyIndexFirst(len: nat)
    requires 0 < len
    ensures KeyIndex(len, 0) == 0
  {
  }

  lemma NextMod(i: nat, p: nat)
    requires 0 < p
    ensures (i + 1) % p == if i % p + 1 == p then 0 else i % p + 1
  {
    var q, r := i / p, i % p;
    assert i == p * q + r;
    if r + 1 == p {
      assert i + 1 == p * (q + 1);
      QuotientUnique(i + 1, p, q + 1, 0);
    } else {
      QuotientUnique(i + 1, p, q, r + 1);
    }
  }

  lemma QuotientUnique(n: nat, p: nat, q: nat, r: nat)
    requires 0 < p && r < p && n == p * q + r
    ensures n % p == r
  {
    MulOrder(p, q, n / p);
    MulOrder(p, n / p, q);
  }

  lemma MulOrder(p: nat, a: nat, b: nat)
    ensures a < b ==> p * a + p <= p * b
  {
    if a < b {
      var d := b - a - 1;
      Distribute(p, a, d);
      assert p * (a + 1 + d) == p * b;
    }
  }

  lemma Distribute(p: nat, a: nat, d: nat)
    ensures p * (a + 1 + d) == p * a + p + p * d && p * d >= 0
  {
  }

  lemma AddMod(a: nat, b: nat)
    ensures (b + a % 256) % 256 == (a + b) % 256
  {
  }

  lemma NextAIs(a: nat, len: nat)
    requires a < len
    ensures NextA(a, len) == if a + 1 == len then 0 else (a + 1) % 256
  {
    if a + 1 < len {
      QuotientUnique(a + 1, len, 0, a + 1);
    } else {
      QuotientUnique(a + 1, len, 1, 0);
    }
  }

  lemma NextsAre(k: Byte, cell: nat, b: nat, a: nat, len: nat)
    requires a < len
    ensures NextB(k, cell, b) == (ValOf(k) + cell + b) % 256 && NextA(a, len) == (a + 1) % len % 256
  {
  }

  lemma NextKeyIndex(len: nat, i: nat)
    requires 0 < len && i < 255
    ensures NextA(KeyIndex(len, i), len) == KeyIndex(len, i + 1)
  {
    hide NextA;
    var p := if len < 256 then len else 256;
    NextMod(i, p);
    NextAIs(i % p, len);
  }

  /** The context after arc4_init. */
  function Keyed(key: Bytes, keybits: nat): (s: State)
    requires 0 < KeyBytes(keybits) <= |key|
    ensures Shaped(s)
  {
    State(ScheduleAt(key, KeyBytes(keybits), 256).m, 0, 0)
  }

  lemma {:induction false} ScheduleIsPermutation(key: Bytes, len: nat, i: nat)
    requires 0 < len <= |key| && i <= 256
    ensures IsPermutation(ScheduleAt(key, len, i).m)
  {
    hide IsPermutation, Swap;
    if i == 0 {
      IdentityIsPermutation();
    } else {
      ScheduleIsPermutation(key, len, i - 1);
      SwapKeepsPermutation(ScheduleAt(key, len, i - 1).m, i - 1, ScheduleAt(key, len, i).b);
    }
  }

  // ---------------------------------------------------------------- generator

  function Next(s: State): (r: State)
    requires Shaped(s)
    ensures Shaped(r)
  {
    var x := (s.x + 1) % 256;
    var y := (s.m[x] + s.y) % 256;
    State(Swap(s.m, x, y), x, y)
  }

  /** The keystream byte read in the state a step leaves. */
  function Pick(s: State): Byte
    requires Shaped(s)
  {
    ByteOf(s.m[(s.m[s.x] + s.m[s.y]) % 256])
  }

  function After(s: State, n: nat): (r: State)
    requires Shaped(s)
    ensures Shaped(r)
  {
    if n == 0 then s else Next(After(s, n - 1))
  }

  /** Byte n of the keystream from state s on. */
  function KeyByte(s: State, n: nat): Byte
    requires Shaped(s)
  {
    Pick(After(s, n + 1))
  }

  function Crypt(s: State, data: Bytes): (r: Bytes)
    requires Shaped(s)
    ensures |r| == |data|
    ensures forall j :: 0 <= j < |r| ==> r[j] == Xor8(data[j], KeyByte(s, j))
  {
    seq(|data|, j requires 0 <= j < |data| => Xor8(data[j], KeyByte(s, j)))
  }

  /** The table stays a permutation of all byte values, whatever the key and however many bytes
      have been produced. */
  lemma {:induction false} AlwaysPermutation(key: Bytes, keybits: nat, n: nat)
    requires 0 < KeyBytes(keybits) <= |key|
    ensures IsPermutation(After(Keyed(key, keybits), n).m)
  {
    hide IsPermutation, Swap;
    var s := Keyed(key, keybits);
    if n == 0 {
      ScheduleIsPermutation(key, KeyBytes(keybits), 256);
    } else {
      AlwaysPermutation(key, keybits, n - 1);
      var t := After(s, n - 1);
      SwapKeepsPermutation(t.m, Next(t).x, Next(t).y);
    }
  }

  /** The table cells that the first n steps meet, added up. */
  function CellSum(s: State, n: nat): nat
    requires Shaped(s)
  {
    if n == 0 then 0 else CellSum(s, n - 1) + After(s, n - 1).m[n % 256]
  }

  /** Both indices of a freshly keyed generator after n bytes. */
  lemma {:induction false} GeneratorIndices(key: Bytes, keybits: nat, n: nat)
    requires 0 < KeyBytes(keybits) <= |key|
    ensures var s := Keyed(key, keybits); After(s, n).x == n % 256 && After(s, n).y == CellSum(s, n) % 256
  {
    hide Swap, ScheduleAt;
    var s := Keyed(key, keybits);
    if n > 0 {
      GeneratorIndices(key, keybits, n - 1);
      NextIndices(After(s, n - 1), n, CellSum(s, n - 1));
    }
  }

  lemma NextIndices(s: State, n: nat, sum: nat)
    requires Shaped(s) && n > 0 && s.x == (n - 1) % 256 && s.y == sum % 256
    ensures Next(s).x == n % 256 && Next(s).y == (sum + s.m[n % 256]) % 256
  {
    hide Swap;
    AddMod(n - 1, 1);
    AddMod(sum, s.m[n % 256]);
  }

  lemma {:induction false} AfterSum(s: State, m: nat, n: nat)
    requires Shaped(s)
    ensures After(s, m + n) == After(After(s, m), n)
  {
    hide Next;
    if n > 0 {
      AfterSum(s, m, n - 1);
    }
  }

  lemma KeyByteShift(s: State, m: nat, n: nat)
    requires Shaped(s)
    ensures KeyByte(s, m + n) == KeyByte(After(s, m), n)
  {
    hide Shaped, Next, After, Pick;
    AfterSum(s, m, n + 1);
    assert m + (n + 1) == m + n + 1;
  }

  lemma CryptAt(s: State, data: Bytes, j: nat)
    requires Shaped(s) && j < |data|
    ensures Crypt(s, data)[j] == Xor8(data[j], KeyByte(s, j))
  {
    hide Shaped, After, KeyByte, Xor8;
  }

  lemma TailAt(s: State, data: Bytes, m: nat, j: nat)
    requires Shaped(s) && m + j < |data|
    ensures Crypt(s, data)[m + j] == Crypt(After(s, m), data[m..])[j]
  {
    hide Shaped, After, KeyByte, Xor8, Crypt;
    CryptAt(s, data, m + j);
    CryptAt(After(s, m), data[m..], j);
    KeyByteShift(s, m, j);
  }

  lemma TailOf(s: State, data: Bytes, m: nat)
    requires Shaped(s) && m <= |data|
    ensures Crypt(s, data)[m..] == Crypt(After(s, m), data[m..])
  {
    hide Shaped, After, Crypt;
    var l, r := Crypt(s, data)[m..], Crypt(After(s, m), data[m..]);
    forall j | 0 <= j < |r| ensures l[j] == r[j] {
      TailAt(s, data, m, j);
    }
  }

  lemma FrontOf(s: State, data: Bytes, m: nat)
    requires Shaped(s) && m <= |data|
    ensures Crypt(s, data)[..m] == Crypt(s, data[..m])
  {
    hide Shaped, Crypt;
    var l, r := Crypt(s, data)[..m], Crypt(s, data[..m]);
    forall j | 0 <= j < m ensures l[j] == r[j] {
      CryptAt(s, data, j);
      CryptAt(s, data[..m], j);
    }
  }

  /** Two calls give what one call on the concatenation gives. */
  lemma CryptSplit(s: State, a: Bytes, b: Bytes)
    requires Shaped(s)
    ensures Crypt(s, a + b) == Crypt(s, a) + Crypt(After(s, |a|), b)
  {
    hide Shaped, After, Crypt;
    assert (a + b)[..|a|] == a && (a + b)[|a|..] == b;
    FrontOf(s, a + b, |a|);
    TailOf(s, a + b, |a|);
    Rejoin(Crypt(s, a + b), |a|);
  }

  lemma Rejoin(s: Bytes, n: nat)
    requires n <= |s|
    ensures s[..n] + s[n..] == s
  {
  }

  /** A second pass under the same key gives the input back. */
  lemma CryptTwice(key: Bytes, keybits: nat, data: Bytes)
    requires 0 < KeyBytes(keybits) <= |key|
    ensures Crypt(Keyed(key, keybits), Crypt(Keyed(key, keybits), data)) == data
  {
    hide KeyByte, Xor8, Keyed;
    var s := Keyed(key, keybits);
    forall j | 0 <= j < |data| ensures Crypt(s, Crypt(s, data))[j] == data[j] {
      Xor8Laws(data[j], KeyByte(s, j));
    }
  }

  // ---------------------------------------------------------------- the context object

  class Context {
    const m: array<nat>
    var x: nat
    var y: nat

    ghost predicate Valid()
      reads this, m
    {
      m.Length == 256 && Shaped(View())
    }

    ghost function View(): State
      reads this, m
    {
      State(m[..], x, y)
    }

    constructor ()
      ensures Valid() && fresh(m)
    {
      m := new nat[256](_ => 0);
      x, y := 0, 0;
    }

    /** swap8 on two table cells */
    method SwapCells(i: nat, j: nat)
      requires Valid() && i < 256 && j < 256
      modifies m
      ensures Valid() && m[..] == Swap(old(m[..]), i, j)
    {
      m[i], m[j] := m[j], m[i];
    }

    method FillTable()
      requires Valid()
      modifies m
      ensures Valid() && m[..] == Identity()
    {
      for i := 0 to 256
        invariant forall k :: 0 <= k < i ==> m[k] == k
      {
        m[i] := i;
      }
    }

    /** arc4_init */
    method Init(key: Bytes, keybits: nat)
      requires Valid() && 0 < KeyBytes(keybits) <= |key|
      modifies this, m
      ensures Valid() && View() == Keyed(key, keybits)
    {
      hide IsPermutation, Swap, Identity, NextA, NextB, ValOf;
      var len := KeyBytes(keybits);
      var a: nat, b: nat := 0, 0;
      x, y := 0, 0;
      FillTable();
      for i := 0 to 256
        invariant Valid() && x == 0 && y == 0
        invariant Schedule(m[..], a, b) == ScheduleAt(key, len, i)
      {
        NextsAre(key[a], m[i], b, a, len);
        b := (ValOf(key[a]) + m[i] + b) % 256;
        SwapCells(i, b);
        a := (a + 1) % len % 256;
      }
    }

    /** One turn of arc4_update's loop. */
    method Step() returns (k: Byte)
      requires Valid()
      modifies this, m
      ensures Valid() && View() == Next(old(View())) && k == Pick(View())
    {
      hide Swap;
      x := (x + 1) % 256;
      y := (m[x] + y) % 256;
      SwapCells(x, y);
      var j := (m[x] + m[y]) % 256;
      k := ByteOf(m[j]);
    }

    /** arc4_update; None stands for a null input, which asks for the raw keystream. */
    method Update(input: Option<Bytes>, length: nat) returns (output: Bytes)
      requires Valid() && (input.Some? ==> |input.value| == length)
      modifies this, m
      ensures Valid() && View() == After(old(View()), length)
      ensures output == Crypt(old(View()), if input.Some? then input.value else Zeros(length))
    {
      hide Xor8, Next, Pick, Table;
      ghost var s := View();
      output := [];
      for i := 0 to length
        invariant Valid() && View() == After(s, i) && |output| == i
        invariant forall j :: 0 <= j < i ==>
          output[j] == Xor8(if input.Some? then input.value[j] else 0, KeyByte(s, j))
      {
        var k := Step();
        Xor8Laws(k, 0);
        output := output + [if input.Some? then Xor8(input.value[i], k) else k];
      }
    }
  }
}
