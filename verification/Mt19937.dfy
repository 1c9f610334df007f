// The Mersenne Twister of src/prng/mt19937.c.

module Mt19937 {
  import opened TwisterMatrix

  const N: nat := 624
  const M: nat := 397

  // ---------------------------------------------------------------- the recurrence

  function Mix(far: Word, u: Word, v: Word): Word {
    far ^ Twist(u, v)
  }

  lemma RegeneratedIsMix(far: Word, u: Word, v: Word)
    ensures Regenerated(far, u, v) == Mix(far, u, v)
  {
    hide Twist, Regenerated;
    RegeneratedIsTwist(far, u, v);
  }

  /** The infinite sequence x: 624 given words, then
      x[k + 624] = x[k + 397] xor twist(x[k], x[k + 1]). */
  function X(init: seq<Word>, k: nat): Word
    requires |init| == N
  {
    if k < N then init[k] else Mix(X(init, k - N + M), X(init, k - N), X(init, k - N + 1))
  }

  lemma XStep(init: seq<Word>, k: nat)
    requires |init| == N
    ensures X(init, k + N) == Mix(X(init, k + M), X(init, k), X(init, k + 1))
  {
  }

  // ---------------------------------------------------------------- seeding

  /** The uint32_t value of an index, which wraps around. */
  function Index32(i: nat): Word {
    if i == 0 then 0 else Index32(i - 1) + 1
  }

  function GenrandStep(prev: Word, i: nat): Word {
    1812433253 * (prev ^ (prev >> 30)) + Index32(i)
  }

  /** Word i of the table after init_genrand. */
  function Genrand(s: Word, i: nat): Word {
    if i == 0 then s else GenrandStep(Genrand(s, i - 1), i)
  }

  function GenrandTable(s: Word): (t: seq<Word>)
    ensures |t| == N
  {
    seq(N, i requires 0 <= i < N => Genrand(s, i))
  }

  /** The loop state of mt19937_init. */
  datatype Mixing = Mixing(mt: seq<Word>, i: nat, j: nat)

  predicate Turning(s: Mixing) {
    |s.mt| == N && 1 <= s.i < N
  }

  function KeyWord(prev: Word, cur: Word, key: Word, j: nat): Word {
    (cur ^ ((prev ^ (prev >> 30)) * 1664525)) + key + Index32(j)
  }

  function FinalWord(prev: Word, cur: Word, i: nat): Word {
    (cur ^ ((prev ^ (prev >> 30)) * 1566083941)) - Index32(i)
  }

  /** Store a word at i and move on; at the end of the table wrap around to cell 1. */
  function Advance(mt: seq<Word>, i: nat, w: Word): (r: (seq<Word>, nat))
    requires |mt| == N && 1 <= i < N
    ensures |r.0| == N && 1 <= r.1 < N
  {
    var t := mt[i := w];
    if i + 1 >= N then (t[0 := t[N - 1]], 1) else (t, i + 1)
  }

  /** One turn of the first loop, which takes in a key word. */
  function KeyTurn(key: seq<Word>, s: Mixing): (r: Mixing)
    requires Turning(s) && s.j < |key|
    ensures Turning(r) && r.j < |key|
  {
    var (mt, i) := Advance(s.mt, s.i, KeyWord(s.mt[s.i - 1], s.mt[s.i], key[s.j], s.j));
    Mixing(mt, i, if s.j + 1 >= |key| then 0 else s.j + 1)
  }

  /** One turn of the second loop. */
  function FinalTurn(s: Mixing): (r: Mixing)
    requires Turning(s)
    ensures Turning(r) && r.j == s.j
  {
    var (mt, i) := Advance(s.mt, s.i, FinalWord(s.mt[s.i - 1], s.mt[s.i], s.i));
    Mixing(mt, i, s.j)
  }

  function KeyTurns(key: seq<Word>, n: nat): (r: Mixing)
    requires |key| > 0
    ensures Turning(r) && r.j < |key|
  {
    if n == 0 then Mixing(GenrandTable(19650218), 1, 0) else KeyTurn(key, KeyTurns(key, n - 1))
  }

  function FinalTurns(s: Mixing, n: nat): (r: Mixing)
    requires Turning(s)
    ensures Turning(r)
  {
    if n == 0 then s else FinalTurn(FinalTurns(s, n - 1))
  }

  /** The words that seeding takes in. */
  function KeyRead(words: seq<Word>, keyLength: nat): (key: seq<Word>)
    requires keyLength <= |words| && |words| > 0
    ensures |key| == if keyLength == 0 then 1 else keyLength
    ensures forall j :: 0 <= j < |key| ==> key[j] == words[j]
  {
    if keyLength == 0 then words[..1] else words[..keyLength]
  }

  /** The table mt19937_init leaves for these words. */
  function Seeded(key: seq<Word>): (t: seq<Word>)
    requires |key| > 0
    ensures |t| == N && t[0] == 0x80000000
  {
    FinalTurns(KeyTurns(key, if N > |key| then N else |key|), N - 1).mt[0 := 0x80000000]
  }

  // ---------------------------------------------------------------- the generator

  class Generator {
    const mt: array<Word>
    var mti: nat
    var initialized: bool
    ghost var init: seq<Word>
    ghost var base: nat

    /** The table is a window of 624 consecutive words of the sequence. */
    ghost predicate Valid()
      reads this, mt
    {
      && mt.Length == N && mti <= N && |init| == N
      && forall j :: 0 <= j < N ==> mt[j] == X(init, base + j)
    }

    /** The index in the sequence of the word the next update returns, unless it reseeds. */
    ghost function Index(): nat
      reads this
    {
      base + mti
    }

    /** A zeroed context. */
    constructor ()
      ensures Valid() && fresh(mt) && !initialized && mti == 0 && base == 0
      ensures init == seq(N, _ => 0)
    {
      mt := new Word[N](_ => 0);
      mti, initialized := 0, false;
      init, base := seq(N, _ => 0), 0;
    }

    /** init_genrand */
    method InitGenrand(s: Word)
      requires Valid()
      modifies this, mt
      ensures Valid() && initialized && mti == N && base == 0 && init == GenrandTable(s)
    {
      hide X, GenrandStep;
      mt[0] := s;
      mti := 1;
      while mti < N
        invariant 1 <= mti <= N
        invariant forall j :: 0 <= j < mti ==> mt[j] == Genrand(s, j)
      {
        mt[mti] := GenrandStep(mt[mti - 1], mti);
        mti := mti + 1;
      }
      initialized := true;
      init, base := GenrandTable(s), 0;
      XOfInit(init);
    }

    /** mt19937_init; keyLength is the number of whole words in the seed, and words is what can
        be read from the seed pointer on. Without a whole word the loop reads one all the same. */
    method Init(words: seq<Word>, keyLength: nat)
      requires Valid() && keyLength <= |words| && |words| > 0
      modifies this, mt
      ensures Valid() && initialized && mti == N && base == 0 && init == Seeded(KeyRead(words, keyLength))
    {
      hide X, KeyTurns, FinalTurns, Genrand;
      ghost var key := KeyRead(words, keyLength);
      InitGenrand(19650218);
      XOfInit(init);
      assert mt[..] == GenrandTable(19650218);
      var k := if N > keyLength then N else keyLength;
      ghost var keyed := KeyTurns(key, k);
      var i := KeyLoop(words, keyLength, k);
      FinalLoop(i, keyed);
      mt[0] := 0x80000000;
      init := Seeded(key);
      assert mt[..] == init;
      XOfInit(init);
    }

    /** The end of a turn of either seeding loop. */
    method Store(i: nat, w: Word) returns (next: nat)
      requires mt.Length == N && 1 <= i < N
      modifies mt
      ensures (mt[..], next) == Advance(old(mt[..]), i, w)
    {
      mt[i] := w;
      next := i + 1;
      if next >= N {
        mt[0] := mt[N - 1];
        next := 1;
      }
    }

    /** The first loop of mt19937_init. */
    method KeyLoop(words: seq<Word>, keyLength: nat, turns: nat) returns (i: nat)
      requires mt.Length == N && keyLength <= |words| && |words| > 0 && mt[..] == GenrandTable(19650218)
      modifies mt
      ensures var end := KeyTurns(KeyRead(words, keyLength), turns); Turning(end) && mt[..] == end.mt && i == end.i
    {
      hide KeyWord, GenrandTable, KeyRead, Advance;
      ghost var key := KeyRead(words, keyLength);
      i := 1;
      var j: nat := 0;
      for n := 0 to turns
        invariant Mixing(mt[..], i, j) == KeyTurns(key, n)
        invariant Turning(KeyTurns(key, n)) && j < |key|
      {
        i := Store(i, KeyWord(mt[i - 1], mt[i], words[j], j));
        j := j + 1;
        if j >= keyLength {
          j := 0;
        }
      }
    }

    /** The second loop of mt19937_init. */
    method FinalLoop(start: nat, ghost s: Mixing)
      requires mt.Length == N && Turning(s) && mt[..] == s.mt && start == s.i
      modifies mt
      ensures Turning(FinalTurns(s, N - 1)) && mt[..] == FinalTurns(s, N - 1).mt
    {
      hide FinalWord, Advance;
      var i: nat := start;
      for n := 0 to N - 1
        invariant Turning(FinalTurns(s, n))
        invariant mt[..] == FinalTurns(s, n).mt && i == FinalTurns(s, n).i
      {
        i := Store(i, FinalWord(mt[i - 1], mt[i], i));
      }
    }

    /** The in-place regeneration: the window moves on by 624 words. Each loop reads cells that
        are still old or already new, as the recurrence asks for. */
    method Regenerate()
      requires Valid()
      modifies mt, this`base, this`mti
      ensures Valid() && base == old(base) + N && mti == 0
    {
      hide X, Mix, Regenerated;
      var kk := 0;
      while kk < N - M
        invariant 0 <= kk <= N - M && base == old(base)
        invariant forall j :: 0 <= j < kk ==> mt[j] == X(init, base + N + j)
        invariant forall j :: kk <= j < N ==> mt[j] == X(init, base + j)
      {
        XStep(init, base + kk);
        RegeneratedIsMix(mt[kk + M], mt[kk], mt[kk + 1]);
        mt[kk] := Regenerated(mt[kk + M], mt[kk], mt[kk + 1]);
        kk := kk + 1;
      }
      while kk < N - 1
        invariant N - M <= kk <= N - 1 && base == old(base)
        invariant forall j :: 0 <= j < kk ==> mt[j] == X(init, base + N + j)
        invariant forall j :: kk <= j < N ==> mt[j] == X(init, base + j)
      {
        XStep(init, base + kk);
        assert base + kk + M == base + N + (kk + M - N);
        RegeneratedIsMix(mt[kk + M - N], mt[kk], mt[kk + 1]);
        mt[kk] := Regenerated(mt[kk + M - N], mt[kk], mt[kk + 1]);
        kk := kk + 1;
      }
      XStep(init, base + N - 1);
      assert base + (N - 1) + M == base + N + (M - 1);
      assert base + (N - 1) + 1 == base + N + 0;
      RegeneratedIsMix(mt[M - 1], mt[N - 1], mt[0]);
      mt[N - 1] := Regenerated(mt[M - 1], mt[N - 1], mt[0]);
      assert base + (N - 1) + N == base + N + (N - 1);
      assert forall j :: 0 <= j < N ==> mt[j] == X(init, base + N + j);
      base := base + N;
      mti := 0;
    }

    /** mt19937_update. A context that was never seeded and has used up its zero words seeds
        itself; otherwise the next word of the sequence comes out, tempered. */
    method Update() returns (output: Word)
      requires Valid()
      modifies this, mt
      ensures Valid() && mti > 0
      ensures old(mti) == N && !old(initialized) ==>
        initialized && init == GenrandTable(5489) && Index() == N + 1 && output == Tempered(X(init, N))
      ensures old(mti) < N || old(initialized) ==>
        && init == old(init) && Index() == old(Index()) + 1
        && initialized == old(initialized) && output == Tempered(X(init, old(Index())))
    {
      hide X, Temper, Tempered;
      if mti >= N {
        if !initialized {
          InitGenrand(5489);
        }
        Regenerate();
      }
      TemperIsMatrix(mt[mti]);
      output := Temper(mt[mti]);
      mti := mti + 1;
    }

    /** n consecutive updates after seeding: output word k is the tempering of x[k + 624]. */
    method Words(n: nat) returns (output: seq<Word>)
      requires Valid() && initialized
      modifies this, mt
      ensures Valid() && initialized && init == old(init) && Index() == old(Index()) + n
      ensures |output| == n && forall k :: 0 <= k < n ==> output[k] == Tempered(X(init, old(Index()) + k))
    {
      hide X, Tempered;
      output := [];
      for k := 0 to n
        invariant Valid() && initialized && init == old(init) && Index() == old(Index()) + k
        invariant |output| == k && forall i :: 0 <= i < k ==> output[i] == Tempered(X(init, old(Index()) + i))
      {
        var w := Update();
        output := output + [w];
      }
    }
  }

  lemma XOfInit(init: seq<Word>)
    requires |init| == N
    ensures forall j :: 0 <= j < N ==> X(init, j) == init[j]
  {
  }

  /** A zeroed context that is never seeded would give zeros forever: the reason why the first
      regeneration seeds it and why its first 624 words are useless. */
  lemma {:induction false} ZeroTableGivesZeros(k: nat)
    ensures X(seq(N, _ => 0), k) == 0 && Tempered(X(seq(N, _ => 0), k)) == 0
  {
    if k >= N {
      ZeroTableGivesZeros(k - N + M);
      ZeroTableGivesZeros(k - N);
      ZeroTableGivesZeros(k - N + 1);
      MixOfZeros();
    }
    TemperZero();
  }

  lemma MixOfZeros()
    ensures Mix(0, 0, 0) == 0
  {
  }

  lemma TemperZero()
    ensures Tempered(0) == 0
  {
  }

  // ---------------------------------------------------------------- words of the reference runs

  lemma SmallIndices()
    ensures Index32(2) == 2 && Index32(3) == 3 && Index32(4) == 4
  {
  }

  lemma KnownGenrand()
    ensures GenrandStep(2938499221, 3) == 2950281878
  {
    hide Index32;
    SmallIndices();
  }

  lemma KnownKeyWord()
    ensures KeyWord(2540085905, 1417962806, 0x345, 2) == 567523720
  {
    hide Index32;
    SmallIndices();
  }

  lemma KnownFinalWord()
    ensures FinalWord(3559376401, 454281912, 4) == 4152304030
  {
    hide Index32;
    SmallIndices();
  }

  /** The first output for the seed 5489, from the three words of the table that decide it. */
  lemma KnownOutput(init: seq<Word>)
    requires |init| == N && init[0] == 5489 && init[1] == 1301868182 && init[397] == 3183906156
    ensures Tempered(X(init, N)) == 3499211612
  {
    hide Twist, Tempered;
    assert X(init, N) == Mix(X(init, M), X(init, 0), X(init, 1));
    KnownTwist();
    KnownTempered();
  }

  lemma KnownTwist()
    ensures 3183906156 ^ Twist(5489, 1301868182) == 2601187879
  {
  }

  lemma KnownTempered()
    ensures Tempered(2601187879) == 3499211612
  {
  }
}
