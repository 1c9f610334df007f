// Threefish round by round, as section 3.3 of The Skein Hash Function Family, version 1.3,
// defines it, and the refinement: the unrolled code leaves the word permutation out and lets
// the pair order of each round follow it instead.

module ThreefishSpec {
  import opened Words
  import opened Rotate
  import opened Threefish

  /** MIX of section 3.3.1. */
  function MixWords(x: Word, y: Word, r: nat): (Word, Word) {
    var y0 := Add(x, y);
    (y0, XorW(Rol(y, r), y0))
  }

  lemma MixIsSpec(x: Word, y: Word, r: nat, k0: Word, k1: Word)
    ensures Mix(x, y, r, k0, k1) == MixWords(Add(x, k0), Add(y, k1), r)
  {
    hide Add, Rol, XorW;
    var y1 := Add(y, k1);
    AddCommutes(y1, k0);
    AddAssociates(x, k0, y1);
  }

  /** What the specification fixes for a block size: the number of words and of rounds
      (Table 2), the rotation constants (Table 4) and the word permutation (Table 3). */
  datatype Standard = Standard(nw: nat, rounds: nat, rots: seq<seq<nat>>, pi: seq<nat>)

  const THREEFISH_256: Standard := Standard(4, 72, [
    [14, 16],
    [52, 57],
    [23, 40],
    [5, 37],
    [25, 33],
    [46, 12],
    [58, 22],
    [32, 32]],
    [0, 3, 2, 1])

  const THREEFISH_512: Standard := Standard(8, 72, [
    [46, 36, 19, 37],
    [33, 27, 14, 42],
    [17, 49, 36, 39],
    [44, 9, 54, 56],
    [39, 30, 34, 24],
    [13, 50, 10, 17],
    [25, 29, 39, 43],
    [8, 35, 56, 22]],
    [2, 1, 4, 7, 6, 5, 0, 3])

  const THREEFISH_1024: Standard := Standard(16, 80, [
    [24, 13, 8, 47, 8, 17, 22, 37],
    [38, 19, 10, 55, 49, 18, 23, 52],
    [33, 4, 51, 13, 34, 41, 59, 17],
    [5, 20, 48, 41, 47, 28, 16, 25],
    [41, 9, 37, 31, 12, 47, 44, 30],
    [16, 34, 56, 51, 4, 53, 42, 41],
    [31, 44, 47, 46, 19, 42, 44, 25],
    [9, 48, 35, 52, 23, 31, 37, 20]],
    [0, 9, 2, 13, 6, 11, 4, 15, 10, 7, 12, 3, 14, 5, 8, 1])

  /** A state, key and tweak of this block size. */
  ghost predicate Suits(p: Standard, sch: Schedule, s: seq<Word>) {
    && p.nw >= 4 && p.nw % 2 == 0 && |sch.k| == p.nw + 1 && |sch.t| == 3 && |s| == p.nw
    && |p.rots| == 8 && (forall j :: 0 <= j < 8 ==> 2 * |p.rots[j]| == p.nw)
    && |p.pi| == p.nw && (forall i :: 0 <= i < p.nw ==> p.pi[i] < p.nw)
  }

  /** The state with a subkey added before every fourth round. */
  ghost function Keyed(p: Standard, sch: Schedule, s: seq<Word>, d: nat): (e: seq<Word>)
    requires Suits(p, sch, s)
    ensures |e| == p.nw
  {
    if d % 4 == 0 then seq(p.nw, i requires 0 <= i < p.nw => Add(s[i], SubKey(p.nw, sch, d / 4, i))) else s
  }

  ghost function Component(p: (Word, Word), j: nat): Word {
    if j == 0 then p.0 else p.1
  }

  /** Round d: key addition, MIX on neighbouring words, word permutation pi. */
  ghost function SpecRound(p: Standard, sch: Schedule, s: seq<Word>, d: nat): (r: seq<Word>)
    requires Suits(p, sch, s)
    ensures |r| == p.nw
  {
    var e := Keyed(p, sch, s, d);
    seq(p.nw, i requires 0 <= i < p.nw => Mixed(p, sch, e, p.pi[i], d))
  }

  /** Word j of the state after the MIX step. */
  ghost function Mixed(p: Standard, sch: Schedule, e: seq<Word>, j: nat, d: nat): Word
    requires Suits(p, sch, e) && j < p.nw
  {
    Component(MixWords(e[2 * (j / 2)], e[2 * (j / 2) + 1], p.rots[d % 8][j / 2]), j % 2)
  }

  ghost function SpecRounds(p: Standard, sch: Schedule, s: seq<Word>, d: nat): (r: seq<Word>)
    requires Suits(p, sch, s)
    ensures |r| == p.nw
  {
    if d == 0 then s else SpecRound(p, sch, SpecRounds(p, sch, s, d - 1), d - 1)
  }

  /** The whole cipher: all rounds and one more subkey. */
  ghost function SpecEncrypt(p: Standard, sch: Schedule, s: seq<Word>): (r: seq<Word>)
    requires Suits(p, sch, s)
    ensures |r| == p.nw
  {
    var e := SpecRounds(p, sch, s, p.rounds);
    seq(p.nw, i requires 0 <= i < p.nw => Add(e[i], SubKey(p.nw, sch, p.rounds / 4, i)))
  }

  // ---------------------------------------------------------------- the refinement

  /** The pair orders of a group follow the word permutation, which the fourth round closes. */
  ghost predicate Follows(v: Variant, pi: seq<nat>) {
    && |v.orders| == 4 && (forall q :: 0 <= q < 4 ==> |v.orders[q]| == v.nw)
    && |pi| == v.nw && (forall i :: 0 <= i < v.nw ==> pi[i] < v.nw)
    && (forall i :: 0 <= i < v.nw ==> v.orders[0][i] == i)
    && (forall q, i :: 0 <= q < 3 && 0 <= i < v.nw ==> v.orders[q + 1][i] == v.orders[q][pi[i]])
    && (forall i :: 0 <= i < v.nw ==> v.orders[3][pi[i]] == i)
  }

  /** The tables of the code say what the specification says. */
  ghost predicate Implements(v: Variant, p: Standard) {
    v.nw == p.nw && 4 * |v.encRows| == p.rounds && v.rots == p.rots && Follows(v, p.pi)
  }

  lemma EvenWords(v: Variant, d: nat)
    requires WellFormed(v)
    ensures 2 * |v.rots[d % 8]| == v.nw
  {
    hide IsRow, IsOrder;
  }

  lemma InputSuits(v: Variant, p: Standard, sch: Schedule, s: seq<Word>)
    requires Input(v, sch, s) && Implements(v, p)
    ensures Suits(p, sch, s)
  {
    hide IsRow, IsOrder;
    assert 2 * |v.rots[0]| == v.nw;
  }

  lemma NextOrder(v: Variant, pi: seq<nat>, d: nat, i: nat)
    requires WellFormed(v) && Follows(v, pi) && i < v.nw
    ensures v.orders[(d + 1) % 4][i] == v.orders[d % 4][pi[i]]
  {
    hide IsRow, IsOrder;
    if d % 4 == 3 {
      assert v.orders[0][i] == i;
      assert v.orders[3][pi[i]] == i;
    } else {
      assert (d + 1) % 4 == d % 4 + 1;
    }
  }

  /** Local number orders[d % 4][i] of the code holds word i of the specification. */
  ghost predicate Holds(v: Variant, o: seq<Word>, s: seq<Word>, d: nat) {
    && WellFormed(v) && |o| == |s| == v.nw
    && var p := v.orders[d % 4];
    |p| == v.nw && (forall i :: 0 <= i < v.nw ==> p[i] < v.nw && s[i] == o[p[i]])
  }

  /** One mixed pair of the code is one MIX of the specification. */
  lemma PairRefines(v: Variant, p: Standard, sch: Schedule, o: seq<Word>, s: seq<Word>, d: nat, i: nat)
    requires Input(v, sch, o) && Suits(p, sch, s) && v.nw == p.nw
    requires d < 4 * |v.encRows| && 2 * i < v.nw && Holds(v, o, s, d)
    requires RowInRange(v, v.encRows[d / 4]) && 2 * |v.rots[d % 8]| == v.nw
    ensures var keys := RoundKeys(v, sch, v.encRows[d / 4], d % 4);
      var q := v.orders[d % 4];
      Mix(o[q[2 * i]], o[q[2 * i + 1]], v.rots[d % 8][i], keys[2 * i], keys[2 * i + 1]) ==
      MixWords(Keyed(p, sch, s, d)[2 * i], Keyed(p, sch, s, d)[2 * i + 1], v.rots[d % 8][i])
  {
    hide Add, WordOf, IsOrder, Mix, MixWords, SubKey, RowKey, RowInRange;
    var row := v.encRows[d / 4];
    var keys := RoundKeys(v, sch, row, d % 4);
    EvenWords(v, d);
    MixIsSpec(s[2 * i], s[2 * i + 1], v.rots[d % 8][i], keys[2 * i], keys[2 * i + 1]);
    if d % 4 == 0 {
      assert IsRow(v.nw, d / 4, row);
      RowKeyIsSubKey(v, sch, d / 4, row, 2 * i);
      RowKeyIsSubKey(v, sch, d / 4, row, 2 * i + 1);
    } else {
      AddZero(s[2 * i]);
      AddZero(s[2 * i + 1]);
    }
  }

  lemma WordRefines(v: Variant, p: Standard, sch: Schedule, o: seq<Word>, s: seq<Word>, d: nat, j: nat)
    requires Input(v, sch, o) && Suits(p, sch, s) && v.nw == p.nw && v.rots == p.rots
    requires d < 4 * |v.encRows| && j < v.nw && Holds(v, o, s, d)
    requires RowInRange(v, v.encRows[d / 4])
    requires RoundShape(o, v.orders[d % 4], v.rots[d % 8], RoundKeys(v, sch, v.encRows[d / 4], d % 4))
    ensures Round(true, o, v.orders[d % 4], v.rots[d % 8], RoundKeys(v, sch, v.encRows[d / 4], d % 4))
              [v.orders[d % 4][j]] == Mixed(p, sch, Keyed(p, sch, s, d), j, d)
  {
    hide IsRow, IsOrder, Mix, MixWords, Calls, RowInRange, RoundKeys, Keyed;
    var keys := RoundKeys(v, sch, v.encRows[d / 4], d % 4);
    EvenWords(v, d);
    RoundFits(v, sch, o, d % 4, d % 8, keys);
    PairAlone(true, o, v.orders[d % 4], v.rots[d % 8], keys, |v.rots[d % 8]|, j / 2);
    PairRefines(v, p, sch, o, s, d, j / 2);
  }

  lemma RoundRefines(v: Variant, p: Standard, sch: Schedule, o: seq<Word>, s: seq<Word>, d: nat)
    requires Input(v, sch, o) && Suits(p, sch, s) && Implements(v, p) && d < 4 * |v.encRows| && Holds(v, o, s, d)
    ensures Holds(v, RoundAt(true, v, sch, o, d), SpecRound(p, sch, s, d), d + 1)
  {
    hide IsRow, IsOrder, Mixed, Round, RowInRange, RoundKeys, Keyed;
    RowUsable(v, d / 4);
    RoundFits(v, sch, o, d % 4, d % 8, RoundKeys(v, sch, v.encRows[d / 4], d % 4));
    var q2 := v.orders[(d + 1) % 4];
    var o2, s2 := RoundAt(true, v, sch, o, d), SpecRound(p, sch, s, d);
    forall i: nat | i < v.nw ensures q2[i] < v.nw && s2[i] == o2[q2[i]] {
      NextOrder(v, p.pi, d, i);
      WordRefines(v, p, sch, o, s, d, p.pi[i]);
    }
  }

  /** After every round the locals of the code hold the state of the specification, permuted. */
  lemma {:induction false} RoundsRefine(v: Variant, p: Standard, sch: Schedule, o: seq<Word>, d: nat)
    requires Input(v, sch, o) && Suits(p, sch, o) && Implements(v, p) && d <= 4 * |v.encRows|
    ensures Holds(v, Encrypting(v, sch, o, d), SpecRounds(p, sch, o, d), d)
  {
    hide IsRow, IsOrder, RoundAt, SpecRound;
    if d > 0 {
      RoundsRefine(v, p, sch, o, d - 1);
      RoundRefines(v, p, sch, Encrypting(v, sch, o, d - 1), SpecRounds(p, sch, o, d - 1), d - 1);
    }
  }

  /** tf*_encrypt computes Threefish, if its tables are those of the specification. */
  lemma EncryptIsThreefish(v: Variant, p: Standard, sch: Schedule, o: seq<Word>)
    requires Input(v, sch, o) && Implements(v, p)
    ensures Suits(p, sch, o) && Encrypted(v, sch, o) == SpecEncrypt(p, sch, o)
  {
    hide IsRow, IsOrder, Encrypting, SpecRounds, LastAdd, SubKey, Add, RowInRange;
    InputSuits(v, p, sch, o);
    var n := p.rounds;
    RoundsRefine(v, p, sch, o, n);
    RowInRangeOf(v, |v.encRows|, v.lastRow);
    var e, s := Encrypting(v, sch, o, n), SpecRounds(p, sch, o, n);
    forall i: nat | i < v.nw ensures Encrypted(v, sch, o)[i] == SpecEncrypt(p, sch, o)[i] {
      assert v.orders[0][i] == i;
      assert e[i] == s[i];
      LastAddIsSubKey(v, sch, i, e[i]);
    }
  }
}
