// The Threefish block ciphers of src/blockcipher/ciphers/threefish. The three files share one
// shape: a schedule of rounds in groups of four (the macros m1 and m2), each call of which
// carries the indices of its subkey words. A Variant holds the literals of one file.

module Threefish {
  import opened Words
  import opened Rotate

  /** orders[d] lists the locals in the order in which round d of a group pairs them up;
      rots has one line per round of m1 and then of m2; rows are the arguments of the macro
      calls in tf*_encrypt and tf*_decrypt, last the subkey added at the end. */
  datatype Variant = Variant(
    nw: nat,
    orders: seq<seq<nat>>,
    rots: seq<seq<nat>>,
    encRows: seq<seq<nat>>,
    decRows: seq<seq<nat>>,
    lastRow: seq<nat>)

  /** The expanded key k[0..nw] and tweak t[0..2]. */
  datatype Schedule = Schedule(k: seq<Word>, t: seq<Word>)

  ghost predicate Fits(v: Variant, s: Schedule) {
    |s.k| == v.nw + 1 && |s.t| == 3
  }

  const TF_PARITY: Word := 0x1bd11bdaa9fc1a22

  // ---------------------------------------------------------------- one subkey

  /** Entry i of the argument list that subkey s must have: key indices, with the tweak indices
      and the counter in the last three words. */
  function RowEntry(nw: nat, s: nat, i: nat): nat
    requires nw >= 4
  {
    if i <= nw - 3 then (s + i) % (nw + 1)
    else if i == nw - 2 then s % 3
    else if i == nw - 1 then (s + nw - 2) % (nw + 1)
    else if i == nw then (s + 1) % 3
    else if i == nw + 1 then (s + nw - 1) % (nw + 1)
    else s
  }

  ghost predicate IsRow(nw: nat, s: nat, row: seq<nat>)
    requires nw >= 4
  {
    |row| == nw + 3 && forall i :: 0 <= i < nw + 3 ==> row[i] == RowEntry(nw, s, i)
  }

  ghost predicate RowInRange(v: Variant, row: seq<nat>) {
    v.nw >= 4 && |row| == v.nw + 3
    && (forall i :: 0 <= i < v.nw - 2 ==> row[i] <= v.nw)
    && row[v.nw - 1] <= v.nw && row[v.nw + 1] <= v.nw
    && row[v.nw - 2] < 3 && row[v.nw] < 3
  }

  /** The words a macro call adds: its arguments looked up in the schedule. */
  function RowKey(v: Variant, s: Schedule, row: seq<nat>, i: nat): Word
    requires Fits(v, s) && RowInRange(v, row) && i < v.nw
  {
    if i < v.nw - 3 then s.k[row[i]]
    else if i == v.nw - 3 then Add(s.k[row[i]], s.t[row[i + 1]])
    else if i == v.nw - 2 then Add(s.k[row[i + 1]], s.t[row[i + 2]])
    else Add(s.k[row[i + 2]], WordOf(row[i + 3]))
  }

  /** Word i of subkey s (section 3.3.2 of The Skein Hash Function Family, version 1.3). */
  function SubKey(nw: nat, sch: Schedule, s: nat, i: nat): Word
    requires |sch.k| == nw + 1 && |sch.t| == 3 && nw >= 4 && i < nw
  {
    var key := sch.k[(s + i) % (nw + 1)];
    if i < nw - 3 then key
    else if i == nw - 3 then Add(key, sch.t[s % 3])
    else if i == nw - 2 then Add(key, sch.t[(s + 1) % 3])
    else Add(key, WordOf(s))
  }

  lemma RowInRangeOf(v: Variant, s: nat, row: seq<nat>)
    requires v.nw >= 4 && IsRow(v.nw, s, row)
    ensures RowInRange(v, row)
  {
    forall j | 0 <= j < v.nw - 2 ensures row[j] <= v.nw {
      assert row[j] == (s + j) % (v.nw + 1);
    }
  }

  lemma RowKeyIsSubKey(v: Variant, sch: Schedule, s: nat, row: seq<nat>, i: nat)
    requires Fits(v, sch) && v.nw >= 4 && i < v.nw && IsRow(v.nw, s, row)
    ensures RowInRange(v, row) && RowKey(v, sch, row, i) == SubKey(v.nw, sch, s, i)
  {
    hide Add, WordOf, RowInRange, RowEntry, IsRow;
    RowInRangeOf(v, s, row);
    RowEntries(v.nw, s, row, i);
  }

  /** The entries that word i is made from. */
  lemma RowEntries(nw: nat, s: nat, row: seq<nat>, i: nat)
    requires nw >= 4 && IsRow(nw, s, row) && i < nw
    ensures i <= nw - 3 ==> row[i] == (s + i) % (nw + 1)
    ensures i == nw - 3 ==> row[i + 1] == s % 3
    ensures i == nw - 2 ==> row[i + 1] == (s + i) % (nw + 1) && row[i + 2] == (s + 1) % 3
    ensures i == nw - 1 ==> row[i + 2] == (s + i) % (nw + 1) && row[i + 3] == s
  {
  }

  // ---------------------------------------------------------------- the m and u macros

  /** m: the pair after mixing. */
  function Mix(x: Word, y: Word, r: nat, k0: Word, k1: Word): (Word, Word) {
    var y1 := Add(y, k1);
    var x1 := Add(x, Add(y1, k0));
    (x1, XorW(Rol(y1, r), x1))
  }

  /** u: the pair before mixing. */
  function Unmix(x: Word, y: Word, r: nat, k0: Word, k1: Word): (Word, Word) {
    var y1 := Ror(XorW(y, x), r);
    (Sub(x, Add(y1, k0)), Sub(y1, k1))
  }

  lemma UnmixMix(x: Word, y: Word, r: nat, k0: Word, k1: Word)
    ensures var (x1, y1) := Mix(x, y, r, k0, k1); Unmix(x1, y1, r, k0, k1) == (x, y)
  {
    hide Add, Sub, Rol, Ror, XorW;
    var ym := Add(y, k1);
    var xm := Add(x, Add(ym, k0));
    XorWCancels(Rol(ym, r), xm);
    RorRol(ym, r);
    SubAdd(x, Add(ym, k0));
    SubAdd(y, k1);
  }

  // ---------------------------------------------------------------- one round in place

  /** An order visits every local once. */
  ghost predicate IsOrder(nw: nat, p: seq<nat>) {
    && |p| == nw
    && (forall i :: 0 <= i < nw ==> p[i] < nw)
    && (forall i, j :: 0 <= i < j < nw ==> p[i] != p[j])
    && (forall w: nat :: w < nw ==> w in p)
  }

  lemma OrderDistinct(nw: nat, p: seq<nat>, i: nat, j: nat)
    requires IsOrder(nw, p) && i < nw && j < nw && i != j
    ensures p[i] != p[j]
  {
  }

  /** A macro call on one pair: m when mixing, u otherwise. */
  function Apply(mixing: bool, x: Word, y: Word, r: nat, k0: Word, k1: Word): (Word, Word) {
    if mixing then Mix(x, y, r, k0, k1) else Unmix(x, y, r, k0, k1)
  }

  ghost predicate RoundShape(o: seq<Word>, p: seq<nat>, rots: seq<nat>, keys: seq<Word>) {
    |o| == |keys| == |p| == 2 * |rots| && forall i :: 0 <= i < |p| ==> p[i] < |o|
  }

  /** The locals after the first n macro calls of a round, made one after the other. */
  ghost function Calls(mixing: bool, o: seq<Word>, p: seq<nat>, rots: seq<nat>, keys: seq<Word>, n: nat): (r: seq<Word>)
    requires RoundShape(o, p, rots, keys) && n <= |rots|
    ensures |r| == |o|
  {
    if n == 0 then o
    else
      var s := Calls(mixing, o, p, rots, keys, n - 1);
      var (x, y) := Apply(mixing, s[p[2 * n - 2]], s[p[2 * n - 1]], rots[n - 1], keys[2 * n - 2], keys[2 * n - 1]);
      s[p[2 * n - 2] := x][p[2 * n - 1] := y]
  }

  /** The pairs of a round are disjoint: each comes out as if its call had been made alone. */
  lemma {:induction false} PairAlone(mixing: bool, o: seq<Word>, p: seq<nat>, rots: seq<nat>, keys: seq<Word>,
                                     n: nat, i: nat)
    requires RoundShape(o, p, rots, keys) && IsOrder(|o|, p) && n <= |rots| && i < |rots|
    ensures var r := Calls(mixing, o, p, rots, keys, n);
      (r[p[2 * i]], r[p[2 * i + 1]]) ==
        if i < n then Apply(mixing, o[p[2 * i]], o[p[2 * i + 1]], rots[i], keys[2 * i], keys[2 * i + 1])
        else (o[p[2 * i]], o[p[2 * i + 1]])
  {
    hide Apply, IsOrder;
    OrderDistinct(|o|, p, 2 * i, 2 * i + 1);
    if n > 0 {
      PairAlone(mixing, o, p, rots, keys, n - 1, i);
      if i != n - 1 {
        OrderDistinct(|o|, p, 2 * i, 2 * n - 2);
        OrderDistinct(|o|, p, 2 * i, 2 * n - 1);
        OrderDistinct(|o|, p, 2 * i + 1, 2 * n - 2);
        OrderDistinct(|o|, p, 2 * i + 1, 2 * n - 1);
      }
    }
  }

  ghost function Round(mixing: bool, o: seq<Word>, p: seq<nat>, rots: seq<nat>, keys: seq<Word>): (r: seq<Word>)
    requires RoundShape(o, p, rots, keys)
    ensures |r| == |o|
  {
    Calls(mixing, o, p, rots, keys, |rots|)
  }

  lemma OrderReaches(nw: nat, p: seq<nat>, w: nat) returns (q: nat)
    requires IsOrder(nw, p) && w < nw
    ensures q < nw && p[q] == w
  {
    assert w in p;
    q :| q < nw && p[q] == w;
  }

  lemma PairUndone(o: seq<Word>, p: seq<nat>, rots: seq<nat>, keys: seq<Word>, i: nat)
    requires RoundShape(o, p, rots, keys) && IsOrder(|o|, p) && i < |rots|
    ensures var u := Round(false, Round(true, o, p, rots, keys), p, rots, keys);
      u[p[2 * i]] == o[p[2 * i]] && u[p[2 * i + 1]] == o[p[2 * i + 1]]
  {
    hide IsOrder, Calls, Mix, Unmix;
    PairAlone(true, o, p, rots, keys, |rots|, i);
    PairAlone(false, Round(true, o, p, rots, keys), p, rots, keys, |rots|, i);
    UnmixMix(o[p[2 * i]], o[p[2 * i + 1]], rots[i], keys[2 * i], keys[2 * i + 1]);
  }

  /** One round of u calls undoes one round of m calls, although both go through the pairs in
      the same order. */
  lemma RoundUndone(o: seq<Word>, p: seq<nat>, rots: seq<nat>, keys: seq<Word>)
    requires RoundShape(o, p, rots, keys) && IsOrder(|o|, p)
    ensures Round(false, Round(true, o, p, rots, keys), p, rots, keys) == o
  {
    hide IsOrder, Round;
    var u := Round(false, Round(true, o, p, rots, keys), p, rots, keys);
    forall w: nat | w < |o| ensures u[w] == o[w] {
      var q := OrderReaches(|o|, p, w);
      PairUndone(o, p, rots, keys, q / 2);
    }
  }

  // ---------------------------------------------------------------- all rounds

  /** What the literals of a Threefish file have to satisfy. */
  ghost predicate WellFormed(v: Variant) {
    && v.nw >= 4
    && |v.orders| == 4 && (forall q :: 0 <= q < 4 ==> IsOrder(v.nw, v.orders[q]))
    && |v.rots| == 8 && (forall j :: 0 <= j < 8 ==> 2 * |v.rots[j]| == v.nw)
    && |v.encRows| % 2 == 0 && |v.decRows| == |v.encRows|
    && (forall s :: 0 <= s < |v.encRows| ==> IsRow(v.nw, s, v.encRows[s]))
    && (forall s :: 0 <= s < |v.encRows| ==> v.decRows[s] == v.encRows[|v.encRows| - 1 - s])
    && IsRow(v.nw, |v.encRows|, v.lastRow)
  }

  ghost predicate Input(v: Variant, sch: Schedule, o: seq<Word>) {
    WellFormed(v) && Fits(v, sch) && |o| == v.nw
  }

  lemma RowUsable(v: Variant, s: nat)
    requires WellFormed(v) && s < |v.encRows|
    ensures RowInRange(v, v.encRows[s]) && RowInRange(v, v.decRows[|v.encRows| - 1 - s])
    ensures v.decRows[|v.encRows| - 1 - s] == v.encRows[s]
  {
    hide IsOrder, RowInRange;
    var row := v.encRows[s];
    RowInRangeOf(v, s, row);
    assert v.decRows[|v.encRows| - 1 - s] == v.encRows[|v.encRows| - 1 - (|v.encRows| - 1 - s)];
  }

  /** The words added in round q of a group: subkey words in the first, zeros in the others. */
  ghost function RoundKeys(v: Variant, sch: Schedule, row: seq<nat>, q: nat): (k: seq<Word>)
    requires Fits(v, sch) && RowInRange(v, row)
    ensures |k| == v.nw
  {
    seq(v.nw, i requires 0 <= i < v.nw => if q == 0 then RowKey(v, sch, row, i) else WordOf(0))
  }

  lemma RoundFits(v: Variant, sch: Schedule, o: seq<Word>, q: nat, j: nat, keys: seq<Word>)
    requires Input(v, sch, o) && q < 4 && j < 8 && |keys| == v.nw
    ensures RoundShape(o, v.orders[q], v.rots[j], keys) && IsOrder(|o|, v.orders[q])
  {
    hide IsRow;
    assert IsOrder(v.nw, v.orders[q]);
  }

  /** Round e of the m macros, or its undoing by the u macros. */
  ghost function RoundAt(mixing: bool, v: Variant, sch: Schedule, o: seq<Word>, e: nat): (r: seq<Word>)
    requires Input(v, sch, o) && e < 4 * |v.encRows|
    ensures |r| == v.nw
  {
    RowUsable(v, e / 4);
    var keys := RoundKeys(v, sch, v.encRows[e / 4], e % 4);
    RoundFits(v, sch, o, e % 4, e % 8, keys);
    Round(mixing, o, v.orders[e % 4], v.rots[e % 8], keys)
  }

  lemma RoundAtUndone(v: Variant, sch: Schedule, o: seq<Word>, e: nat)
    requires Input(v, sch, o) && e < 4 * |v.encRows|
    ensures RoundAt(false, v, sch, RoundAt(true, v, sch, o, e), e) == o
  {
    hide Round, RoundKeys, IsOrder, IsRow, RowInRange;
    RowUsable(v, e / 4);
    var keys := RoundKeys(v, sch, v.encRows[e / 4], e % 4);
    RoundFits(v, sch, o, e % 4, e % 8, keys);
    RoundUndone(o, v.orders[e % 4], v.rots[e % 8], keys);
  }

  /** The locals of tf*_encrypt after d rounds; m1 holds four rounds and m2 the next four. */
  ghost function Encrypting(v: Variant, sch: Schedule, o: seq<Word>, d: nat): (r: seq<Word>)
    requires Input(v, sch, o) && d <= 4 * |v.encRows|
    ensures |r| == v.nw
  {
    if d == 0 then o else RoundAt(true, v, sch, Encrypting(v, sch, o, d - 1), d - 1)
  }

  /** The locals of tf*_decrypt after d rounds: u2 undoes four rounds, last first, then u1. */
  ghost function Decrypting(v: Variant, sch: Schedule, o: seq<Word>, d: nat): (r: seq<Word>)
    requires Input(v, sch, o) && d <= 4 * |v.decRows|
    ensures |r| == v.nw
  {
    if d == 0 then o
    else
      var e := d - 1;
      var s := Decrypting(v, sch, o, e);
      RowUsable(v, |v.encRows| - 1 - e / 4);
      var keys := RoundKeys(v, sch, v.decRows[e / 4], 3 - e % 4);
      RoundFits(v, sch, s, 3 - e % 4, 7 - e % 8, keys);
      Round(false, s, v.orders[3 - e % 4], v.rots[7 - e % 8], keys)
  }

  lemma Mirror(rows: nat, d: nat)
    requires rows % 2 == 0 && d < 4 * rows
    ensures var e := 4 * rows - 1 - d;
      e % 4 == 3 - d % 4 && e % 8 == 7 - d % 8 && e / 4 == rows - 1 - d / 4
  {
    var h, q, r := rows / 2, d / 8, d % 8;
    assert d == 8 * q + r && 4 * rows - 1 - d == 8 * (h - 1 - q) + (7 - r);
  }

  lemma DecryptingStep(v: Variant, sch: Schedule, o: seq<Word>, d: nat)
    requires Input(v, sch, o) && d < 4 * |v.encRows|
    ensures |v.decRows| == |v.encRows|
    ensures Decrypting(v, sch, o, d + 1) ==
            RoundAt(false, v, sch, Decrypting(v, sch, o, d), 4 * |v.encRows| - 1 - d)
  {
    hide Round, RoundKeys, IsOrder, IsRow, RowInRange;
    Mirror(|v.encRows|, d);
    RowUsable(v, |v.encRows| - 1 - d / 4);
  }

  lemma NoRounds(v: Variant, sch: Schedule, o: seq<Word>)
    requires Input(v, sch, o)
    ensures Encrypting(v, sch, o, 0) == Decrypting(v, sch, o, 0) == o
  {
    hide IsRow, IsOrder, Round;
  }

  /** Every round of tf*_decrypt takes back the last round of tf*_encrypt still in force. */
  lemma {:induction false} RoundsUndone(v: Variant, sch: Schedule, o: seq<Word>, d: nat)
    requires Input(v, sch, o) && d <= 4 * |v.encRows| && |v.decRows| == |v.encRows|
    ensures var n := 4 * |v.encRows|;
      Decrypting(v, sch, Encrypting(v, sch, o, n), d) == Encrypting(v, sch, o, n - d)
  {
    hide RoundAt, WellFormed, Decrypting;
    var n := 4 * |v.encRows|;
    var x := Encrypting(v, sch, o, n);
    if d > 0 {
      RoundsUndone(v, sch, o, d - 1);
      DecryptingStep(v, sch, x, d - 1);
      assert Encrypting(v, sch, o, n - d + 1) == RoundAt(true, v, sch, Encrypting(v, sch, o, n - d), n - d);
      RoundAtUndone(v, sch, Encrypting(v, sch, o, n - d), n - d);
    } else {
      NoRounds(v, sch, x);
    }
  }

  // ---------------------------------------------------------------- whole blocks

  /** The words added to local i on output: the last subkey, one addition at a time. */
  function LastAdd(v: Variant, sch: Schedule, i: nat, w: Word): Word
    requires Fits(v, sch) && RowInRange(v, v.lastRow) && i < v.nw
  {
    var row := v.lastRow;
    if i < v.nw - 3 then Add(w, sch.k[row[i]])
    else if i == v.nw - 3 then Add(Add(w, sch.k[row[i]]), sch.t[row[i + 1]])
    else if i == v.nw - 2 then Add(Add(w, sch.k[row[i + 1]]), sch.t[row[i + 2]])
    else Add(Add(w, sch.k[row[i + 2]]), WordOf(row[i + 3]))
  }

  /** And subtracted on the input of decryption, in the same sequence. */
  function FirstSub(v: Variant, sch: Schedule, i: nat, w: Word): Word
    requires Fits(v, sch) && RowInRange(v, v.lastRow) && i < v.nw
  {
    var row := v.lastRow;
    if i < v.nw - 3 then Sub(w, sch.k[row[i]])
    else if i == v.nw - 3 then Sub(Sub(w, sch.k[row[i]]), sch.t[row[i + 1]])
    else if i == v.nw - 2 then Sub(Sub(w, sch.k[row[i + 1]]), sch.t[row[i + 2]])
    else Sub(Sub(w, sch.k[row[i + 2]]), WordOf(row[i + 3]))
  }

  lemma SubSubAddAdd(w: Word, k: Word, t: Word)
    ensures Sub(Sub(Add(Add(w, k), t), k), t) == w
  {
    hide Add, Sub;
    AddAssociates(w, k, t);
    AddCommutes(k, t);
    AddAssociates(w, t, k);
    SubAdd(Add(w, t), k);
    SubAdd(w, t);
  }

  lemma FirstSubLastAdd(v: Variant, sch: Schedule, i: nat, w: Word)
    requires Fits(v, sch) && RowInRange(v, v.lastRow) && i < v.nw
    ensures FirstSub(v, sch, i, LastAdd(v, sch, i, w)) == w
  {
    hide Add, Sub, WordOf;
    var row := v.lastRow;
    if i < v.nw - 3 {
      SubAdd(w, sch.k[row[i]]);
    } else if i == v.nw - 3 {
      SubSubAddAdd(w, sch.k[row[i]], sch.t[row[i + 1]]);
    } else if i == v.nw - 2 {
      SubSubAddAdd(w, sch.k[row[i + 1]], sch.t[row[i + 2]]);
    } else {
      SubSubAddAdd(w, sch.k[row[i + 2]], WordOf(row[i + 3]));
    }
  }

  lemma LastAddIsSubKey(v: Variant, sch: Schedule, i: nat, w: Word)
    requires WellFormed(v) && Fits(v, sch) && i < v.nw && RowInRange(v, v.lastRow)
    ensures LastAdd(v, sch, i, w) == Add(w, SubKey(v.nw, sch, |v.encRows|, i))
  {
    hide Add, WordOf, IsOrder, SubKey, IsRow;
    var row := v.lastRow;
    RowKeyIsSubKey(v, sch, |v.encRows|, row, i);
    if i == v.nw - 3 {
      AddAssociates(w, sch.k[row[i]], sch.t[row[i + 1]]);
    } else if i == v.nw - 2 {
      AddAssociates(w, sch.k[row[i + 1]], sch.t[row[i + 2]]);
    } else if i == v.nw - 1 {
      AddAssociates(w, sch.k[row[i + 2]], WordOf(row[i + 3]));
    }
  }

  ghost function Encrypted(v: Variant, sch: Schedule, o: seq<Word>): (r: seq<Word>)
    requires Input(v, sch, o)
    ensures |r| == v.nw
  {
    RowInRangeOf(v, |v.encRows|, v.lastRow);
    var e := Encrypting(v, sch, o, 4 * |v.encRows|);
    seq(v.nw, i requires 0 <= i < v.nw => LastAdd(v, sch, i, e[i]))
  }

  ghost function Unkeyed(v: Variant, sch: Schedule, x: seq<Word>): (r: seq<Word>)
    requires Input(v, sch, x)
    ensures |r| == v.nw
  {
    RowInRangeOf(v, |v.encRows|, v.lastRow);
    seq(v.nw, i requires 0 <= i < v.nw => FirstSub(v, sch, i, x[i]))
  }

  ghost function Decrypted(v: Variant, sch: Schedule, x: seq<Word>): (r: seq<Word>)
    requires Input(v, sch, x)
    ensures |r| == v.nw
  {
    Decrypting(v, sch, Unkeyed(v, sch, x), 4 * |v.encRows|)
  }

  lemma UnkeyedEncrypted(v: Variant, sch: Schedule, o: seq<Word>)
    requires Input(v, sch, o)
    ensures Unkeyed(v, sch, Encrypted(v, sch, o)) == Encrypting(v, sch, o, 4 * |v.encRows|)
  {
    hide LastAdd, FirstSub, Encrypting, RowInRange, IsRow, IsOrder;
    RowInRangeOf(v, |v.encRows|, v.lastRow);
    var e := Encrypting(v, sch, o, 4 * |v.encRows|);
    forall i: nat | i < v.nw ensures Unkeyed(v, sch, Encrypted(v, sch, o))[i] == e[i] {
      FirstSubLastAdd(v, sch, i, e[i]);
    }
  }

  /** tf*_decrypt inverts tf*_encrypt for every key schedule, tweak and block. */
  lemma DecryptInvertsEncrypt(v: Variant, sch: Schedule, o: seq<Word>)
    requires Input(v, sch, o)
    ensures Decrypted(v, sch, Encrypted(v, sch, o)) == o
  {
    hide Encrypted, Unkeyed, Decrypting, IsRow, IsOrder;
    UnkeyedEncrypted(v, sch, o);
    RoundsUndone(v, sch, o, 4 * |v.encRows|);
    NoRounds(v, sch, o);
  }
}
