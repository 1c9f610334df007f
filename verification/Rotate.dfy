// Rotations of 64-bit words, as the shifts of the C macros, and why one undoes the other: both
// are repeated rotations by one bit.

module Rotate {
  import opened Words

  /** ROL; no rotation in use is by 0 or by 64 bits or more. */
  function Rol(w: Word, r: nat): Word {
    if 0 < r < 64 then (w << r) | (w >> (64 - r)) else w
  }

  /** ROR */
  function Ror(w: Word, r: nat): Word {
    if 0 < r < 64 then (w >> r) | (w << (64 - r)) else w
  }

  function Rol1(w: Word): Word {
    (w << 1) | (w >> 63)
  }

  function Turned(w: Word, n: nat): Word {
    if n == 0 then w else Rol1(Turned(w, n - 1))
  }

  // ---------------------------------------------------------------- one bit more, eight at a time

  lemma Steps0(w: Word)
    ensures Rol1(Rol(w, 1)) == Rol(w, 2)
    ensures Rol1(Rol(w, 2)) == Rol(w, 3)
    ensures Rol1(Rol(w, 3)) == Rol(w, 4)
    ensures Rol1(Rol(w, 4)) == Rol(w, 5)
    ensures Rol1(Rol(w, 5)) == Rol(w, 6)
    ensures Rol1(Rol(w, 6)) == Rol(w, 7)
    ensures Rol1(Rol(w, 7)) == Rol(w, 8)
  {
    assert Rol(w, 1) == (w << 1) | (w >> 63);
    assert Rol(w, 2) == (w << 2) | (w >> 62);
    assert Rol(w, 3) == (w << 3) | (w >> 61);
    assert Rol(w, 4) == (w << 4) | (w >> 60);
    assert Rol(w, 5) == (w << 5) | (w >> 59);
    assert Rol(w, 6) == (w << 6) | (w >> 58);
    assert Rol(w, 7) == (w << 7) | (w >> 57);
    assert Rol(w, 8) == (w << 8) | (w >> 56);
  }

  lemma Step0(w: Word, r: nat)
    requires 1 <= r < 8
    ensures Rol1(Rol(w, r)) == Rol(w, r + 1)
  {
    hide Rol, Rol1;
    Steps0(w);
    if r < 4 {
      assert r == 1 || r == 2 || r == 3;
    } else {
      assert r == 4 || r == 5 || r == 6 || r == 7;
    }
  }

  lemma Steps1(w: Word)
    ensures Rol1(Rol(w, 8)) == Rol(w, 9)
    ensures Rol1(Rol(w, 9)) == Rol(w, 10)
    ensures Rol1(Rol(w, 10)) == Rol(w, 11)
    ensures Rol1(Rol(w, 11)) == Rol(w, 12)
    ensures Rol1(Rol(w, 12)) == Rol(w, 13)
    ensures Rol1(Rol(w, 13)) == Rol(w, 14)
    ensures Rol1(Rol(w, 14)) == Rol(w, 15)
    ensures Rol1(Rol(w, 15)) == Rol(w, 16)
  {
    assert Rol(w, 8) == (w << 8) | (w >> 56);
    assert Rol(w, 9) == (w << 9) | (w >> 55);
    assert Rol(w, 10) == (w << 10) | (w >> 54);
    assert Rol(w, 11) == (w << 11) | (w >> 53);
    assert Rol(w, 12) == (w << 12) | (w >> 52);
    assert Rol(w, 13) == (w << 13) | (w >> 51);
    assert Rol(w, 14) == (w << 14) | (w >> 50);
    assert Rol(w, 15) == (w << 15) | (w >> 49);
    assert Rol(w, 16) == (w << 16) | (w >> 48);
  }

  lemma Step1(w: Word, r: nat)
    requires 8 <= r < 16
    ensures Rol1(Rol(w, r)) == Rol(w, r + 1)
  {
    hide Rol, Rol1;
    Steps1(w);
    if r < 12 {
      assert r == 8 || r == 9 || r == 10 || r == 11;
    } else {
      assert r == 12 || r == 13 || r == 14 || r == 15;
    }
  }

  lemma Steps2(w: Word)
    ensures Rol1(Rol(w, 16)) == Rol(w, 17)
    ensures Rol1(Rol(w, 17)) == Rol(w, 18)
    ensures Rol1(Rol(w, 18)) == Rol(w, 19)
    ensures Rol1(Rol(w, 19)) == Rol(w, 20)
    ensures Rol1(Rol(w, 20)) == Rol(w, 21)
    ensures Rol1(Rol(w, 21)) == Rol(w, 22)
    ensures Rol1(Rol(w, 22)) == Rol(w, 23)
    ensures Rol1(Rol(w, 23)) == Rol(w, 24)
  {
    assert Rol(w, 16) == (w << 16) | (w >> 48);
    assert Rol(w, 17) == (w << 17) | (w >> 47);
    assert Rol(w, 18) == (w << 18) | (w >> 46);
    assert Rol(w, 19) == (w << 19) | (w >> 45);
    assert Rol(w, 20) == (w << 20) | (w >> 44);
    assert Rol(w, 21) == (w << 21) | (w >> 43);
    assert Rol(w, 22) == (w << 22) | (w >> 42);
    assert Rol(w, 23) == (w << 23) | (w >> 41);
    assert Rol(w, 24) == (w << 24) | (w >> 40);
  }

  lemma Step2(w: Word, r: nat)
    requires 16 <= r < 24
    ensures Rol1(Rol(w, r)) == Rol(w, r + 1)
  {
    hide Rol, Rol1;
    Steps2(w);
    if r < 20 {
      assert r == 16 || r == 17 || r == 18 || r == 19;
    } else {
      assert r == 20 || r == 21 || r == 22 || r == 23;
    }
  }

  lemma Steps3(w: Word)
    ensures Rol1(Rol(w, 24)) == Rol(w, 25)
    ensures Rol1(Rol(w, 25)) == Rol(w, 26)
    ensures Rol1(Rol(w, 26)) == Rol(w, 27)
    ensures Rol1(Rol(w, 27)) == Rol(w, 28)
    ensures Rol1(Rol(w, 28)) == Rol(w, 29)
    ensures Rol1(Rol(w, 29)) == Rol(w, 30)
    ensures Rol1(Rol(w, 30)) == Rol(w, 31)
    ensures Rol1(Rol(w, 31)) == Rol(w, 32)
  {
    assert Rol(w, 24) == (w << 24) | (w >> 40);
    assert Rol(w, 25) == (w << 25) | (w >> 39);
    assert Rol(w, 26) == (w << 26) | (w >> 38);
    assert Rol(w, 27) == (w << 27) | (w >> 37);
    assert Rol(w, 28) == (w << 28) | (w >> 36);
    assert Rol(w, 29) == (w << 29) | (w >> 35);
    assert Rol(w, 30) == (w << 30) | (w >> 34);
    assert Rol(w, 31) == (w << 31) | (w >> 33);
    assert Rol(w, 32) == (w << 32) | (w >> 32);
  }

  lemma Step3(w: Word, r: nat)
    requires 24 <= r < 32
    ensures Rol1(Rol(w, r)) == Rol(w, r + 1)
  {
    hide Rol, Rol1;
    Steps3(w);
    if r < 28 {
      assert r == 24 || r == 25 || r == 26 || r == 27;
    } else {
      assert r == 28 || r == 29 || r == 30 || r == 31;
    }
  }

  lemma Steps4(w: Word)
    ensures Rol1(Rol(w, 32)) == Rol(w, 33)
    ensures Rol1(Rol(w, 33)) == Rol(w, 34)
    ensures Rol1(Rol(w, 34)) == Rol(w, 35)
    ensures Rol1(Rol(w, 35)) == Rol(w, 36)
    ensures Rol1(Rol(w, 36)) == Rol(w, 37)
    ensures Rol1(Rol(w, 37)) == Rol(w, 38)
    ensures Rol1(Rol(w, 38)) == Rol(w, 39)
    ensures Rol1(Rol(w, 39)) == Rol(w, 40)
  {
    assert Rol(w, 32) == (w << 32) | (w >> 32);
    assert Rol(w, 33) == (w << 33) | (w >> 31);
    assert Rol(w, 34) == (w << 34) | (w >> 30);
    assert Rol(w, 35) == (w << 35) | (w >> 29);
    assert Rol(w, 36) == (w << 36) | (w >> 28);
    assert Rol(w, 37) == (w << 37) | (w >> 27);
    assert Rol(w, 38) == (w << 38) | (w >> 26);
    assert Rol(w, 39) == (w << 39) | (w >> 25);
    assert Rol(w, 40) == (w << 40) | (w >> 24);
  }

  lemma Step4(w: Word, r: nat)
    requires 32 <= r < 40
    ensures Rol1(Rol(w, r)) == Rol(w, r + 1)
  {
    hide Rol, Rol1;
    Steps4(w);
    if r < 36 {
      assert r == 32 || r == 33 || r == 34 || r == 35;
    } else {
      assert r == 36 || r == 37 || r == 38 || r == 39;
    }
  }

  lemma Steps5(w: Word)
    ensures Rol1(Rol(w, 40)) == Rol(w, 41)
    ensures Rol1(Rol(w, 41)) == Rol(w, 42)
    ensures Rol1(Rol(w, 42)) == Rol(w, 43)
    ensures Rol1(Rol(w, 43)) == Rol(w, 44)
    ensures Rol1(Rol(w, 44)) == Rol(w, 45)
    ensures Rol1(Rol(w, 45)) == Rol(w, 46)
    ensures Rol1(Rol(w, 46)) == Rol(w, 47)
    ensures Rol1(Rol(w, 47)) == Rol(w, 48)
  {
    assert Rol(w, 40) == (w << 40) | (w >> 24);
    assert Rol(w, 41) == (w << 41) | (w >> 23);
    assert Rol(w, 42) == (w << 42) | (w >> 22);
    assert Rol(w, 43) == (w << 43) | (w >> 21);
    assert Rol(w, 44) == (w << 44) | (w >> 20);
    assert Rol(w, 45) == (w << 45) | (w >> 19);
    assert Rol(w, 46) == (w << 46) | (w >> 18);
    assert Rol(w, 47) == (w << 47) | (w >> 17);
    assert Rol(w, 48) == (w << 48) | (w >> 16);
  }

  lemma Step5(w: Word, r: nat)
    requires 40 <= r < 48
    ensures Rol1(Rol(w, r)) == Rol(w, r + 1)
  {
    hide Rol, Rol1;
    Steps5(w);
    if r < 44 {
      assert r == 40 || r == 41 || r == 42 || r == 43;
    } else {
      assert r == 44 || r == 45 || r == 46 || r == 47;
    }
  }

  lemma Steps6(w: Word)
    ensures Rol1(Rol(w, 48)) == Rol(w, 49)
    ensures Rol1(Rol(w, 49)) == Rol(w, 50)
    ensures Rol1(Rol(w, 50)) == Rol(w, 51)
    ensures Rol1(Rol(w, 51)) == Rol(w, 52)
    ensures Rol1(Rol(w, 52)) == Rol(w, 53)
    ensures Rol1(Rol(w, 53)) == Rol(w, 54)
    ensures Rol1(Rol(w, 54)) == Rol(w, 55)
    ensures Rol1(Rol(w, 55)) == Rol(w, 56)
  {
    assert Rol(w, 48) == (w << 48) | (w >> 16);
    assert Rol(w, 49) == (w << 49) | (w >> 15);
    assert Rol(w, 50) == (w << 50) | (w >> 14);
    assert Rol(w, 51) == (w << 51) | (w >> 13);
    assert Rol(w, 52) == (w << 52) | (w >> 12);
    assert Rol(w, 53) == (w << 53) | (w >> 11);
    assert Rol(w, 54) == (w << 54) | (w >> 10);
    assert Rol(w, 55) == (w << 55) | (w >> 9);
    assert Rol(w, 56) == (w << 56) | (w >> 8);
  }

  lemma Step6(w: Word, r: nat)
    requires 48 <= r < 56
    ensures Rol1(Rol(w, r)) == Rol(w, r + 1)
  {
    hide Rol, Rol1;
    Steps6(w);
    if r < 52 {
      assert r == 48 || r == 49 || r == 50 || r == 51;
    } else {
      assert r == 52 || r == 53 || r == 54 || r == 55;
    }
  }

  lemma Steps7(w: Word)
    ensures Rol1(Rol(w, 56)) == Rol(w, 57)
    ensures Rol1(Rol(w, 57)) == Rol(w, 58)
    ensures Rol1(Rol(w, 58)) == Rol(w, 59)
    ensures Rol1(Rol(w, 59)) == Rol(w, 60)
    ensures Rol1(Rol(w, 60)) == Rol(w, 61)
    ensures Rol1(Rol(w, 61)) == Rol(w, 62)
    ensures Rol1(Rol(w, 62)) == Rol(w, 63)
  {
    assert Rol(w, 56) == (w << 56) | (w >> 8);
    assert Rol(w, 57) == (w << 57) | (w >> 7);
    assert Rol(w, 58) == (w << 58) | (w >> 6);
    assert Rol(w, 59) == (w << 59) | (w >> 5);
    assert Rol(w, 60) == (w << 60) | (w >> 4);
    assert Rol(w, 61) == (w << 61) | (w >> 3);
    assert Rol(w, 62) == (w << 62) | (w >> 2);
    assert Rol(w, 63) == (w << 63) | (w >> 1);
  }

  lemma Step7(w: Word, r: nat)
    requires 56 <= r < 63
    ensures Rol1(Rol(w, r)) == Rol(w, r + 1)
  {
    hide Rol, Rol1;
    Steps7(w);
    if r < 60 {
      assert r == 56 || r == 57 || r == 58 || r == 59;
    } else {
      assert r == 60 || r == 61 || r == 62;
    }
  }

  lemma RolStep(w: Word, r: nat)
    requires 0 < r < 63
    ensures Rol1(Rol(w, r)) == Rol(w, r + 1)
  {
    hide Rol, Rol1;
    if r < 8 {
      Step0(w, r);
    } else if r < 16 {
      Step1(w, r);
    } else if r < 24 {
      Step2(w, r);
    } else if r < 32 {
      Step3(w, r);
    } else if r < 40 {
      Step4(w, r);
    } else if r < 48 {
      Step5(w, r);
    } else if r < 56 {
      Step6(w, r);
    } else {
      Step7(w, r);
    }
  }

  lemma RolEnds(w: Word)
    ensures Rol(w, 1) == Rol1(w) && Rol1(Rol(w, 63)) == w
  {
    assert Rol(w, 63) == (w << 63) | (w >> 1);
    assert Rol(w, 1) == (w << 1) | (w >> 63);
  }

  // ---------------------------------------------------------------- the rotations are repeated ones

  /** The shift form rotates by one bit as often as it says. */
  lemma {:induction false} RolIsTurned(w: Word, r: nat)
    requires r < 64
    ensures Rol(w, r) == Turned(w, r)
  {
    hide Rol1;
    if r == 1 {
      RolEnds(w);
      assert Turned(w, 1) == Rol1(Turned(w, 0));
    } else if r > 1 {
      RolIsTurned(w, r - 1);
      RolStep(w, r - 1);
    }
  }

  lemma {:induction false} TurnedSum(w: Word, m: nat, n: nat)
    ensures Turned(w, m + n) == Turned(Turned(w, m), n)
  {
    hide Rol1;
    if n > 0 {
      TurnedSum(w, m, n - 1);
    }
  }

  lemma FullTurn(w: Word)
    ensures Turned(w, 64) == w
  {
    hide Rol, Rol1;
    RolIsTurned(w, 63);
    RolEnds(w);
  }

  lemma RorIsRol(w: Word, r: nat)
    requires 0 < r < 64
    ensures Ror(w, r) == Rol(w, 64 - r)
  {
  }

  lemma RorRolShifts(w: Word, r: nat)
    requires 0 < r < 64
    ensures Ror(Rol(w, r), r) == w
  {
    hide Rol, Ror, Rol1, Turned;
    var v := Rol(w, r);
    RolIsTurned(w, r);
    RolIsTurned(v, 64 - r);
    RorIsRol(v, r);
    TurnedSum(w, r, 64 - r);
    FullTurn(w);
  }

  lemma RorRol(w: Word, r: nat)
    ensures Ror(Rol(w, r), r) == w
  {
    if 0 < r < 64 {
      RorRolShifts(w, r);
    }
  }
}
