// The literals of threefish256.c, threefish512.c and threefish1024.c, and the proof that they
// are what section 3.3 of The Skein Hash Function Family, version 1.3, asks for.

module ThreefishTables {
  import opened Words
  import opened Threefish
  import opened ThreefishSpec

  // ---------------------------------------------------------------- Threefish-256

  const ORDERS256: seq<seq<nat>> := [
    [0, 1, 2, 3],
    [0, 3, 2, 1],
    [0, 1, 2, 3],
    [0, 3, 2, 1]]

  const ROTS256: seq<seq<nat>> := [
    [14, 16],
    [52, 57],
    [23, 40],
    [5, 37],
    [25, 33],
    [46, 12],
    [58, 22],
    [32, 32]]

  const ENC256: seq<seq<nat>> := [
    [0, 1, 0, 2, 1, 3, 0],
    [1, 2, 1, 3, 2, 4, 1],
    [2, 3, 2, 4, 0, 0, 2],
    [3, 4, 0, 0, 1, 1, 3],
    [4, 0, 1, 1, 2, 2, 4],
    [0, 1, 2, 2, 0, 3, 5],
    [1, 2, 0, 3, 1, 4, 6],
    [2, 3, 1, 4, 2, 0, 7],
    [3, 4, 2, 0, 0, 1, 8],
    [4, 0, 0, 1, 1, 2, 9],
    [0, 1, 1, 2, 2, 3, 10],
    [1, 2, 2, 3, 0, 4, 11],
    [2, 3, 0, 4, 1, 0, 12],
    [3, 4, 1, 0, 2, 1, 13],
    [4, 0, 2, 1, 0, 2, 14],
    [0, 1, 0, 2, 1, 3, 15],
    [1, 2, 1, 3, 2, 4, 16],
    [2, 3, 2, 4, 0, 0, 17]]

  const DEC256: seq<seq<nat>> := [
    [2, 3, 2, 4, 0, 0, 17],
    [1, 2, 1, 3, 2, 4, 16],
    [0, 1, 0, 2, 1, 3, 15],
    [4, 0, 2, 1, 0, 2, 14],
    [3, 4, 1, 0, 2, 1, 13],
    [2, 3, 0, 4, 1, 0, 12],
    [1, 2, 2, 3, 0, 4, 11],
    [0, 1, 1, 2, 2, 3, 10],
    [4, 0, 0, 1, 1, 2, 9],
    [3, 4, 2, 0, 0, 1, 8],
    [2, 3, 1, 4, 2, 0, 7],
    [1, 2, 0, 3, 1, 4, 6],
    [0, 1, 2, 2, 0, 3, 5],
    [4, 0, 1, 1, 2, 2, 4],
    [3, 4, 0, 0, 1, 1, 3],
    [2, 3, 2, 4, 0, 0, 2],
    [1, 2, 1, 3, 2, 4, 1],
    [0, 1, 0, 2, 1, 3, 0]]

  const TF256 := Variant(4, ORDERS256, ROTS256, ENC256, DEC256, [3, 4, 0, 0, 1, 1, 18])

  lemma Rows256From0()
    ensures IsRow(4, 0, ENC256[0])
    ensures IsRow(4, 1, ENC256[1])
    ensures IsRow(4, 2, ENC256[2])
    ensures IsRow(4, 3, ENC256[3])
    ensures IsRow(4, 4, ENC256[4])
  {
  }

  lemma Rows256From5()
    ensures IsRow(4, 5, ENC256[5])
    ensures IsRow(4, 6, ENC256[6])
    ensures IsRow(4, 7, ENC256[7])
    ensures IsRow(4, 8, ENC256[8])
    ensures IsRow(4, 9, ENC256[9])
  {
  }

  lemma Rows256From10()
    ensures IsRow(4, 10, ENC256[10])
    ensures IsRow(4, 11, ENC256[11])
    ensures IsRow(4, 12, ENC256[12])
    ensures IsRow(4, 13, ENC256[13])
    ensures IsRow(4, 14, ENC256[14])
  {
  }

  lemma Rows256From15()
    ensures IsRow(4, 15, ENC256[15])
    ensures IsRow(4, 16, ENC256[16])
    ensures IsRow(4, 17, ENC256[17])
  {
  }

  lemma Rows256(s: nat)
    requires s < 18
    ensures IsRow(4, s, ENC256[s])
  {
    hide IsRow;
    Rows256From0();
    Rows256From5();
    Rows256From10();
    Rows256From15();
  }

  lemma LastRow256()
    ensures IsRow(4, 18, TF256.lastRow)
  {
  }

  lemma Order256Round0()
    ensures IsOrder(4, ORDERS256[0])
  {
  }

  lemma Order256Round1()
    ensures IsOrder(4, ORDERS256[1])
  {
  }

  lemma Order256Round2()
    ensures IsOrder(4, ORDERS256[2])
  {
  }

  lemma Order256Round3()
    ensures IsOrder(4, ORDERS256[3])
  {
  }

  lemma Follows256Round0(i: nat)
    requires i < 4
    ensures ORDERS256[1][i] == ORDERS256[0][ORDERS256[1][i]]
  {
  }

  lemma Follows256Round1(i: nat)
    requires i < 4
    ensures ORDERS256[2][i] == ORDERS256[1][ORDERS256[1][i]]
  {
  }

  lemma Follows256Round2(i: nat)
    requires i < 4
    ensures ORDERS256[3][i] == ORDERS256[2][ORDERS256[1][i]]
  {
  }

  lemma Closes256(i: nat)
    requires i < 4
    ensures ORDERS256[0][i] == i && ORDERS256[3][ORDERS256[1][i]] == i
  {
  }

  /** The pair order of the second round is the word permutation of Threefish-256. */
  lemma Pi256(i: nat)
    requires i < 4
    ensures THREEFISH_256.pi[i] == ORDERS256[1][i]
  {
  }

  lemma Rots256(i: nat)
    requires i < 8
    ensures THREEFISH_256.rots[i] == ROTS256[i]
  {
  }

  /** The tables of threefish256.c are those of the specification. */
  lemma TF256Implements()
    ensures Implements(TF256, THREEFISH_256)
  {
    hide Follows;
    TF256Follows();
    forall i: nat | i < 8 ensures THREEFISH_256.rots[i] == ROTS256[i] {
      Rots256(i);
    }
    assert THREEFISH_256.rots == ROTS256;
  }

  lemma TF256Follows()
    ensures Follows(TF256, THREEFISH_256.pi)
  {
    hide IsRow;
    var v, pi := TF256, ORDERS256[1];
    forall i: nat | i < 4 ensures THREEFISH_256.pi[i] == pi[i] {
      Pi256(i);
    }
    assert THREEFISH_256.pi == pi;
    forall i: nat | i < 4
      ensures pi[i] < 4 && v.orders[0][i] == i && v.orders[3][pi[i]] == i
      ensures v.orders[1][i] == v.orders[0][pi[i]]
      ensures v.orders[2][i] == v.orders[1][pi[i]]
      ensures v.orders[3][i] == v.orders[2][pi[i]]
    {
      Closes256(i);
      Follows256Round0(i);
      Follows256Round1(i);
      Follows256Round2(i);
    }
  }

  lemma Mirrored256(s: nat)
    requires s < 18
    ensures DEC256[s] == ENC256[17 - s]
  {
  }

  lemma TF256WellFormed()
    ensures WellFormed(TF256)
  {
    hide IsRow, IsOrder;
    forall s: nat | s < 18 ensures IsRow(4, s, TF256.encRows[s]) && TF256.decRows[s] == TF256.encRows[17 - s] {
      Rows256(s);
      Mirrored256(s);
    }
    LastRow256();
    Order256Round0();
    Order256Round1();
    Order256Round2();
    Order256Round3();
  }

  // ---------------------------------------------------------------- Threefish-512

  const ORDERS512: seq<seq<nat>> := [
    [0, 1, 2, 3, 4, 5, 6, 7],
    [2, 1, 4, 7, 6, 5, 0, 3],
    [4, 1, 6, 3, 0, 5, 2, 7],
    [6, 1, 0, 7, 2, 5, 4, 3]]

  const ROTS512: seq<seq<nat>> := [
    [46, 36, 19, 37],
    [33, 27, 14, 42],
    [17, 49, 36, 39],
    [44, 9, 54, 56],
    [39, 30, 34, 24],
    [13, 50, 10, 17],
    [25, 29, 39, 43],
    [8, 35, 56, 22]]

  const ENC512: seq<seq<nat>> := [
    [0, 1, 2, 3, 4, 5, 0, 6, 1, 7, 0],
    [1, 2, 3, 4, 5, 6, 1, 7, 2, 8, 1],
    [2, 3, 4, 5, 6, 7, 2, 8, 0, 0, 2],
    [3, 4, 5, 6, 7, 8, 0, 0, 1, 1, 3],
    [4, 5, 6, 7, 8, 0, 1, 1, 2, 2, 4],
    [5, 6, 7, 8, 0, 1, 2, 2, 0, 3, 5],
    [6, 7, 8, 0, 1, 2, 0, 3, 1, 4, 6],
    [7, 8, 0, 1, 2, 3, 1, 4, 2, 5, 7],
    [8, 0, 1, 2, 3, 4, 2, 5, 0, 6, 8],
    [0, 1, 2, 3, 4, 5, 0, 6, 1, 7, 9],
    [1, 2, 3, 4, 5, 6, 1, 7, 2, 8, 10],
    [2, 3, 4, 5, 6, 7, 2, 8, 0, 0, 11],
    [3, 4, 5, 6, 7, 8, 0, 0, 1, 1, 12],
    [4, 5, 6, 7, 8, 0, 1, 1, 2, 2, 13],
    [5, 6, 7, 8, 0, 1, 2, 2, 0, 3, 14],
    [6, 7, 8, 0, 1, 2, 0, 3, 1, 4, 15],
    [7, 8, 0, 1, 2, 3, 1, 4, 2, 5, 16],
    [8, 0, 1, 2, 3, 4, 2, 5, 0, 6, 17]]

  const DEC512: seq<seq<nat>> := [
    [8, 0, 1, 2, 3, 4, 2, 5, 0, 6, 17],
    [7, 8, 0, 1, 2, 3, 1, 4, 2, 5, 16],
    [6, 7, 8, 0, 1, 2, 0, 3, 1, 4, 15],
    [5, 6, 7, 8, 0, 1, 2, 2, 0, 3, 14],
    [4, 5, 6, 7, 8, 0, 1, 1, 2, 2, 13],
    [3, 4, 5, 6, 7, 8, 0, 0, 1, 1, 12],
    [2, 3, 4, 5, 6, 7, 2, 8, 0, 0, 11],
    [1, 2, 3, 4, 5, 6, 1, 7, 2, 8, 10],
    [0, 1, 2, 3, 4, 5, 0, 6, 1, 7, 9],
    [8, 0, 1, 2, 3, 4, 2, 5, 0, 6, 8],
    [7, 8, 0, 1, 2, 3, 1, 4, 2, 5, 7],
    [6, 7, 8, 0, 1, 2, 0, 3, 1, 4, 6],
    [5, 6, 7, 8, 0, 1, 2, 2, 0, 3, 5],
    [4, 5, 6, 7, 8, 0, 1, 1, 2, 2, 4],
    [3, 4, 5, 6, 7, 8, 0, 0, 1, 1, 3],
    [2, 3, 4, 5, 6, 7, 2, 8, 0, 0, 2],
    [1, 2, 3, 4, 5, 6, 1, 7, 2, 8, 1],
    [0, 1, 2, 3, 4, 5, 0, 6, 1, 7, 0]]

  const TF512 := Variant(8, ORDERS512, ROTS512, ENC512, DEC512, [0, 1, 2, 3, 4, 5, 0, 6, 1, 7, 18])

  lemma Rows512From0()
    ensures IsRow(8, 0, ENC512[0])
    ensures IsRow(8, 1, ENC512[1])
    ensures IsRow(8, 2, ENC512[2])
    ensures IsRow(8, 3, ENC512[3])
  {
  }

  lemma Rows512From4()
    ensures IsRow(8, 4, ENC512[4])
    ensures IsRow(8, 5, ENC512[5])
    ensures IsRow(8, 6, ENC512[6])
    ensures IsRow(8, 7, ENC512[7])
  {
  }

  lemma Rows512From8()
    ensures IsRow(8, 8, ENC512[8])
    ensures IsRow(8, 9, ENC512[9])
    ensures IsRow(8, 10, ENC512[10])
    ensures IsRow(8, 11, ENC512[11])
  {
  }

  lemma Rows512From12()
    ensures IsRow(8, 12, ENC512[12])
    ensures IsRow(8, 13, ENC512[13])
    ensures IsRow(8, 14, ENC512[14])
    ensures IsRow(8, 15, ENC512[15])
  {
  }

  lemma Rows512From16()
    ensures IsRow(8, 16, ENC512[16])
    ensures IsRow(8, 17, ENC512[17])
  {
  }

  lemma Rows512(s: nat)
    requires s < 18
    ensures IsRow(8, s, ENC512[s])
  {
    hide IsRow;
    Rows512From0();
    Rows512From4();
    Rows512From8();
    Rows512From12();
    Rows512From16();
  }

  lemma LastRow512()
    ensures IsRow(8, 18, TF512.lastRow)
  {
  }

  lemma Order512Round0()
    ensures IsOrder(8, ORDERS512[0])
  {
  }

  lemma Order512Round1()
    ensures IsOrder(8, ORDERS512[1])
  {
  }

  lemma Order512Round2()
    ensures IsOrder(8, ORDERS512[2])
  {
  }

  lemma Order512Round3()
    ensures IsOrder(8, ORDERS512[3])
  {
  }

  lemma Follows512Round0(i: nat)
    requires i < 8
    ensures ORDERS512[1][i] == ORDERS512[0][ORDERS512[1][i]]
  {
  }

  lemma Follows512Round1(i: nat)
    requires i < 8
    ensures ORDERS512[2][i] == ORDERS512[1][ORDERS512[1][i]]
  {
  }

  lemma Follows512Round2(i: nat)
    requires i < 8
    ensures ORDERS512[3][i] == ORDERS512[2][ORDERS512[1][i]]
  {
  }

  lemma Closes512(i: nat)
    requires i < 8
    ensures ORDERS512[0][i] == i && ORDERS512[3][ORDERS512[1][i]] == i
  {
  }

  /** The pair order of the second round is the word permutation of Threefish-512. */
  lemma Pi512(i: nat)
    requires i < 8
    ensures THREEFISH_512.pi[i] == ORDERS512[1][i]
  {
  }

  lemma Rots512(i: nat)
    requires i < 8
    ensures THREEFISH_512.rots[i] == ROTS512[i]
  {
  }

  /** The tables of threefish512.c are those of the specification. */
  lemma TF512Implements()
    ensures Implements(TF512, THREEFISH_512)
  {
    hide Follows;
    TF512Follows();
    forall i: nat | i < 8 ensures THREEFISH_512.rots[i] == ROTS512[i] {
      Rots512(i);
    }
    assert THREEFISH_512.rots == ROTS512;
  }

  lemma TF512Follows()
    ensures Follows(TF512, THREEFISH_512.pi)
  {
    hide IsRow;
    var v, pi := TF512, ORDERS512[1];
    forall i: nat | i < 8 ensures THREEFISH_512.pi[i] == pi[i] {
      Pi512(i);
    }
    assert THREEFISH_512.pi == pi;
    forall i: nat | i < 8
      ensures pi[i] < 8 && v.orders[0][i] == i && v.orders[3][pi[i]] == i
      ensures v.orders[1][i] == v.orders[0][pi[i]]
      ensures v.orders[2][i] == v.orders[1][pi[i]]
      ensures v.orders[3][i] == v.orders[2][pi[i]]
    {
      Closes512(i);
      Follows512Round0(i);
      Follows512Round1(i);
      Follows512Round2(i);
    }
  }

  lemma Mirrored512(s: nat)
    requires s < 18
    ensures DEC512[s] == ENC512[17 - s]
  {
  }

  lemma TF512WellFormed()
    ensures WellFormed(TF512)
  {
    hide IsRow, IsOrder;
    forall s: nat | s < 18 ensures IsRow(8, s, TF512.encRows[s]) && TF512.decRows[s] == TF512.encRows[17 - s] {
      Rows512(s);
      Mirrored512(s);
    }
    LastRow512();
    Order512Round0();
    Order512Round1();
    Order512Round2();
    Order512Round3();
  }

  // ---------------------------------------------------------------- Threefish-1024

  const ORDERS1024: seq<seq<nat>> := [
    [0, 1, 2, 3, 4, 5, 6, 7, 8, 9, 10, 11, 12, 13, 14, 15],
    [0, 9, 2, 13, 6, 11, 4, 15, 10, 7, 12, 3, 14, 5, 8, 1],
    [0, 7, 2, 5, 4, 3, 6, 1, 12, 15, 14, 13, 8, 11, 10, 9],
    [0, 15, 2, 11, 6, 13, 4, 9, 14, 1, 8, 5, 10, 3, 12, 7]]

  const ROTS1024: seq<seq<nat>> := [
    [24, 13, 8, 47, 8, 17, 22, 37],
    [38, 19, 10, 55, 49, 18, 23, 52],
    [33, 4, 51, 13, 34, 41, 59, 17],
    [5, 20, 48, 41, 47, 28, 16, 25],
    [41, 9, 37, 31, 12, 47, 44, 30],
    [16, 34, 56, 51, 4, 53, 42, 41],
    [31, 44, 47, 46, 19, 42, 44, 25],
    [9, 48, 35, 52, 23, 31, 37, 20]]

  const ENC1024: seq<seq<nat>> := [
    [0, 1, 2, 3, 4, 5, 6, 7, 8, 9, 10, 11, 12, 13, 0, 14, 1, 15, 0],
    [1, 2, 3, 4, 5, 6, 7, 8, 9, 10, 11, 12, 13, 14, 1, 15, 2, 16, 1],
    [2, 3, 4, 5, 6, 7, 8, 9, 10, 11, 12, 13, 14, 15, 2, 16, 0, 0, 2],
    [3, 4, 5, 6, 7, 8, 9, 10, 11, 12, 13, 14, 15, 16, 0, 0, 1, 1, 3],
    [4, 5, 6, 7, 8, 9, 10, 11, 12, 13, 14, 15, 16, 0, 1, 1, 2, 2, 4],
    [5, 6, 7, 8, 9, 10, 11, 12, 13, 14, 15, 16, 0, 1, 2, 2, 0, 3, 5],
    [6, 7, 8, 9, 10, 11, 12, 13, 14, 15, 16, 0, 1, 2, 0, 3, 1, 4, 6],
    [7, 8, 9, 10, 11, 12, 13, 14, 15, 16, 0, 1, 2, 3, 1, 4, 2, 5, 7],
    [8, 9, 10, 11, 12, 13, 14, 15, 16, 0, 1, 2, 3, 4, 2, 5, 0, 6, 8],
    [9, 10, 11, 12, 13, 14, 15, 16, 0, 1, 2, 3, 4, 5, 0, 6, 1, 7, 9],
    [10, 11, 12, 13, 14, 15, 16, 0, 1, 2, 3, 4, 5, 6, 1, 7, 2, 8, 10],
    [11, 12, 13, 14, 15, 16, 0, 1, 2, 3, 4, 5, 6, 7, 2, 8, 0, 9, 11],
    [12, 13, 14, 15, 16, 0, 1, 2, 3, 4, 5, 6, 7, 8, 0, 9, 1, 10, 12],
    [13, 14, 15, 16, 0, 1, 2, 3, 4, 5, 6, 7, 8, 9, 1, 10, 2, 11, 13],
    [14, 15, 16, 0, 1, 2, 3, 4, 5, 6, 7, 8, 9, 10, 2, 11, 0, 12, 14],
    [15, 16, 0, 1, 2, 3, 4, 5, 6, 7, 8, 9, 10, 11, 0, 12, 1, 13, 15],
    [16, 0, 1, 2, 3, 4, 5, 6, 7, 8, 9, 10, 11, 12, 1, 13, 2, 14, 16],
    [0, 1, 2, 3, 4, 5, 6, 7, 8, 9, 10, 11, 12, 13, 2, 14, 0, 15, 17],
    [1, 2, 3, 4, 5, 6, 7, 8, 9, 10, 11, 12, 13, 14, 0, 15, 1, 16, 18],
    [2, 3, 4, 5, 6, 7, 8, 9, 10, 11, 12, 13, 14, 15, 1, 16, 2, 0, 19]]

  const DEC1024: seq<seq<nat>> := [
    [2, 3, 4, 5, 6, 7, 8, 9, 10, 11, 12, 13, 14, 15, 1, 16, 2, 0, 19],
    [1, 2, 3, 4, 5, 6, 7, 8, 9, 10, 11, 12, 13, 14, 0, 15, 1, 16, 18],
    [0, 1, 2, 3, 4, 5, 6, 7, 8, 9, 10, 11, 12, 13, 2, 14, 0, 15, 17],
    [16, 0, 1, 2, 3, 4, 5, 6, 7, 8, 9, 10, 11, 12, 1, 13, 2, 14, 16],
    [15, 16, 0, 1, 2, 3, 4, 5, 6, 7, 8, 9, 10, 11, 0, 12, 1, 13, 15],
    [14, 15, 16, 0, 1, 2, 3, 4, 5, 6, 7, 8, 9, 10, 2, 11, 0, 12, 14],
    [13, 14, 15, 16, 0, 1, 2, 3, 4, 5, 6, 7, 8, 9, 1, 10, 2, 11, 13],
    [12, 13, 14, 15, 16, 0, 1, 2, 3, 4, 5, 6, 7, 8, 0, 9, 1, 10, 12],
    [11, 12, 13, 14, 15, 16, 0, 1, 2, 3, 4, 5, 6, 7, 2, 8, 0, 9, 11],
    [10, 11, 12, 13, 14, 15, 16, 0, 1, 2, 3, 4, 5, 6, 1, 7, 2, 8, 10],
    [9, 10, 11, 12, 13, 14, 15, 16, 0, 1, 2, 3, 4, 5, 0, 6, 1, 7, 9],
    [8, 9, 10, 11, 12, 13, 14, 15, 16, 0, 1, 2, 3, 4, 2, 5, 0, 6, 8],
    [7, 8, 9, 10, 11, 12, 13, 14, 15, 16, 0, 1, 2, 3, 1, 4, 2, 5, 7],
    [6, 7, 8, 9, 10, 11, 12, 13, 14, 15, 16, 0, 1, 2, 0, 3, 1, 4, 6],
    [5, 6, 7, 8, 9, 10, 11, 12, 13, 14, 15, 16, 0, 1, 2, 2, 0, 3, 5],
    [4, 5, 6, 7, 8, 9, 10, 11, 12, 13, 14, 15, 16, 0, 1, 1, 2, 2, 4],
    [3, 4, 5, 6, 7, 8, 9, 10, 11, 12, 13, 14, 15, 16, 0, 0, 1, 1, 3],
    [2, 3, 4, 5, 6, 7, 8, 9, 10, 11, 12, 13, 14, 15, 2, 16, 0, 0, 2],
    [1, 2, 3, 4, 5, 6, 7, 8, 9, 10, 11, 12, 13, 14, 1, 15, 2, 16, 1],
    [0, 1, 2, 3, 4, 5, 6, 7, 8, 9, 10, 11, 12, 13, 0, 14, 1, 15, 0]]

  const TF1024 := Variant(16, ORDERS1024, ROTS1024, ENC1024, DEC1024,
      [3, 4, 5, 6, 7, 8, 9, 10, 11, 12, 13, 14, 15, 16, 2, 0, 0, 1, 20])

  lemma Rows1024From0()
    ensures IsRow(16, 0, ENC1024[0])
    ensures IsRow(16, 1, ENC1024[1])
    ensures IsRow(16, 2, ENC1024[2])
  {
  }

  lemma Rows1024From3()
    ensures IsRow(16, 3, ENC1024[3])
    ensures IsRow(16, 4, ENC1024[4])
    ensures IsRow(16, 5, ENC1024[5])
  {
  }

  lemma Rows1024From6()
    ensures IsRow(16, 6, ENC1024[6])
    ensures IsRow(16, 7, ENC1024[7])
    ensures IsRow(16, 8, ENC1024[8])
  {
  }

  lemma Rows1024From9()
    ensures IsRow(16, 9, ENC1024[9])
    ensures IsRow(16, 10, ENC1024[10])
    ensures IsRow(16, 11, ENC1024[11])
  {
  }

  lemma Rows1024From12()
    ensures IsRow(16, 12, ENC1024[12])
    ensures IsRow(16, 13, ENC1024[13])
    ensures IsRow(16, 14, ENC1024[14])
  {
  }

  lemma Rows1024From15()
    ensures IsRow(16, 15, ENC1024[15])
    ensures IsRow(16, 16, ENC1024[16])
    ensures IsRow(16, 17, ENC1024[17])
  {
  }

  lemma Rows1024From18()
    ensures IsRow(16, 18, ENC1024[18])
    ensures IsRow(16, 19, ENC1024[19])
  {
  }

  lemma Rows1024(s: nat)
    requires s < 20
    ensures IsRow(16, s, ENC1024[s])
  {
    hide IsRow;
    Rows1024From0();
    Rows1024From3();
    Rows1024From6();
    Rows1024From9();
    Rows1024From12();
    Rows1024From15();
    Rows1024From18();
  }

  lemma LastRow1024()
    ensures IsRow(16, 20, TF1024.lastRow)
  {
  }

  lemma Order1024Round0()
    ensures IsOrder(16, ORDERS1024[0])
  {
  }

  lemma Order1024Round1()
    ensures IsOrder(16, ORDERS1024[1])
  {
  }

  lemma Order1024Round2()
    ensures IsOrder(16, ORDERS1024[2])
  {
  }

  lemma Order1024Round3()
    ensures IsOrder(16, ORDERS1024[3])
  {
  }

  lemma Follows1024Round0(i: nat)
    requires i < 16
    ensures ORDERS1024[1][i] == ORDERS1024[0][ORDERS1024[1][i]]
  {
  }

  lemma Follows1024Round1(i: nat)
    requires i < 16
    ensures ORDERS1024[2][i] == ORDERS1024[1][ORDERS1024[1][i]]
  {
  }

  lemma Follows1024Round2(i: nat)
    requires i < 16
    ensures ORDERS1024[3][i] == ORDERS1024[2][ORDERS1024[1][i]]
  {
  }

  lemma Closes1024(i: nat)
    requires i < 16
    ensures ORDERS1024[0][i] == i && ORDERS1024[3][ORDERS1024[1][i]] == i
  {
  }

  /** The pair order of the second round is the word permutation of Threefish-1024. */
  lemma Pi1024(i: nat)
    requires i < 16
    ensures THREEFISH_1024.pi[i] == ORDERS1024[1][i]
  {
  }

  lemma Rots1024(i: nat)
    requires i < 8
    ensures THREEFISH_1024.rots[i] == ROTS1024[i]
  {
  }

  /** The tables of threefish1024.c are those of the specification. */
  lemma TF1024Implements()
    ensures Implements(TF1024, THREEFISH_1024)
  {
    hide Follows;
    TF1024Follows();
    forall i: nat | i < 8 ensures THREEFISH_1024.rots[i] == ROTS1024[i] {
      Rots1024(i);
    }
    assert THREEFISH_1024.rots == ROTS1024;
  }

  lemma TF1024Follows()
    ensures Follows(TF1024, THREEFISH_1024.pi)
  {
    hide IsRow;
    var v, pi := TF1024, ORDERS1024[1];
    forall i: nat | i < 16 ensures THREEFISH_1024.pi[i] == pi[i] {
      Pi1024(i);
    }
    assert THREEFISH_1024.pi == pi;
    forall i: nat | i < 16
      ensures pi[i] < 16 && v.orders[0][i] == i && v.orders[3][pi[i]] == i
      ensures v.orders[1][i] == v.orders[0][pi[i]]
      ensures v.orders[2][i] == v.orders[1][pi[i]]
      ensures v.orders[3][i] == v.orders[2][pi[i]]
    {
      Closes1024(i);
      Follows1024Round0(i);
      Follows1024Round1(i);
      Follows1024Round2(i);
    }
  }

  lemma Mirrored1024(s: nat)
    requires s < 20
    ensures DEC1024[s] == ENC1024[19 - s]
  {
  }

  lemma TF1024WellFormed()
    ensures WellFormed(TF1024)
  {
    hide IsRow, IsOrder;
    forall s: nat | s < 20 ensures IsRow(16, s, TF1024.encRows[s]) && TF1024.decRows[s] == TF1024.encRows[19 - s] {
      Rows1024(s);
      Mirrored1024(s);
    }
    LastRow1024();
    Order1024Round0();
    Order1024Round1();
    Order1024Round2();
    Order1024Round3();
  }

  ghost predicate ShiftCounts(row: seq<nat>) {
    forall j :: 0 <= j < |row| ==> 0 < row[j] < 64
  }

  /** No rotation is by 0 or by 64 bits or more, so that ROL and ROR shift by less than the width
      of a word. */
  lemma RotationCounts(d: nat)
    requires d < 8
    ensures ShiftCounts(ROTS256[d]) && ShiftCounts(ROTS512[d]) && ShiftCounts(ROTS1024[d])
  {
    match d
    case 0 =>
    case 1 =>
    case 2 =>
    case 3 =>
    case 4 =>
    case 5 =>
    case 6 =>
    case 7 =>
  }

  /** Threefish-256: the code inverts itself and computes the specified cipher. */
  lemma Threefish256Correct(sch: Schedule, o: seq<Word>)
    requires Input(TF256, sch, o)
    ensures Decrypted(TF256, sch, Encrypted(TF256, sch, o)) == o
    ensures Suits(THREEFISH_256, sch, o) && Encrypted(TF256, sch, o) == SpecEncrypt(THREEFISH_256, sch, o)
  {
    hide WellFormed, Implements, Encrypted, Decrypted, SpecEncrypt;
    TF256Implements();
    DecryptInvertsEncrypt(TF256, sch, o);
    EncryptIsThreefish(TF256, THREEFISH_256, sch, o);
  }

  /** Threefish-512: the code inverts itself and computes the specified cipher. */
  lemma Threefish512Correct(sch: Schedule, o: seq<Word>)
    requires Input(TF512, sch, o)
    ensures Decrypted(TF512, sch, Encrypted(TF512, sch, o)) == o
    ensures Suits(THREEFISH_512, sch, o) && Encrypted(TF512, sch, o) == SpecEncrypt(THREEFISH_512, sch, o)
  {
    hide WellFormed, Implements, Encrypted, Decrypted, SpecEncrypt;
    TF512Implements();
    DecryptInvertsEncrypt(TF512, sch, o);
    EncryptIsThreefish(TF512, THREEFISH_512, sch, o);
  }

  /** Threefish-1024: the code inverts itself and computes the specified cipher. */
  lemma Threefish1024Correct(sch: Schedule, o: seq<Word>)
    requires Input(TF1024, sch, o)
    ensures Decrypted(TF1024, sch, Encrypted(TF1024, sch, o)) == o
    ensures Suits(THREEFISH_1024, sch, o) && Encrypted(TF1024, sch, o) == SpecEncrypt(THREEFISH_1024, sch, o)
  {
    hide WellFormed, Implements, Encrypted, Decrypted, SpecEncrypt;
    TF1024Implements();
    DecryptInvertsEncrypt(TF1024, sch, o);
    EncryptIsThreefish(TF1024, THREEFISH_1024, sch, o);
  }
}
