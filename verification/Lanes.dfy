/** The lanes of the Keccak state and what the operations on them do to their bits. */
module Lanes {

  /** Sixty-four bits. */
  datatype Lane = Lane(bits: bv64)

  function NumberOf(a: Lane): nat {
    a.bits as nat
  }

  function Xor(a: Lane, b: Lane): Lane {
    Lane(a.bits ^ b.bits)
  }

  function NotAnd(a: Lane, b: Lane): Lane {
    Lane(!a.bits & b.bits)
  }

  /** The rotation macro. */
  function Rolled(x: bv64, n: nat): bv64
    requires 0 < n < 64
  {
    (x << n) | (x >> (64 - n))
  }

  function Rotl(a: Lane, n: nat): Lane
    requires n < 64
  {
    if n == 0 then a else Lane(Rolled(a.bits, n))
  }

  // ---- bit by bit ----

  /** Bit z of a lane. */
  function Bit(a: Lane, z: bv7): bool
    requires z < 64
  {
    (a.bits >> z) & 1 == 1
  }

  lemma {:induction false} XorBit(a: Lane, b: Lane, z: bv7)
    requires z < 64
    ensures Bit(Xor(a, b), z) == (Bit(a, z) != Bit(b, z))
  {
  }

  lemma {:induction false} NotAndBit(a: Lane, b: Lane, z: bv7)
    requires z < 64
    ensures Bit(NotAnd(a, b), z) == (!Bit(a, z) && Bit(b, z))
  {
  }

  /** The bits of x but its top n are those of r but its bottom n, and the top n of x are the
      bottom n of r. */
  predicate Up(x: bv64, r: bv64, n: nat)
    requires 0 < n < 64
  {
    r >> n == (x << n) >> n && r << (64 - n) == (x >> (64 - n)) << (64 - n)
  }

  // The rotation moves all bits up and the top ones to the bottom, for every amount in use.

  lemma {:induction false} Up1(x: bv64)
    ensures Up(x, Rolled(x, 1), 1)
  {
    assert Rolled(x, 1) == (x << 1) | (x >> 63);
  }

  lemma {:induction false} Up2(x: bv64)
    ensures Up(x, Rolled(x, 2), 2)
  {
    assert Rolled(x, 2) == (x << 2) | (x >> 62);
  }

  lemma {:induction false} Up3(x: bv64)
    ensures Up(x, Rolled(x, 3), 3)
  {
    assert Rolled(x, 3) == (x << 3) | (x >> 61);
  }

  lemma {:induction false} Up6(x: bv64)
    ensures Up(x, Rolled(x, 6), 6)
  {
    assert Rolled(x, 6) == (x << 6) | (x >> 58);
  }

  lemma {:induction false} Up8(x: bv64)
    ensures Up(x, Rolled(x, 8), 8)
  {
    assert Rolled(x, 8) == (x << 8) | (x >> 56);
  }

  lemma {:induction false} Up10(x: bv64)
    ensures Up(x, Rolled(x, 10), 10)
  {
    assert Rolled(x, 10) == (x << 10) | (x >> 54);
  }

  lemma {:induction false} Up14(x: bv64)
    ensures Up(x, Rolled(x, 14), 14)
  {
    assert Rolled(x, 14) == (x << 14) | (x >> 50);
  }

  lemma {:induction false} Up15(x: bv64)
    ensures Up(x, Rolled(x, 15), 15)
  {
    assert Rolled(x, 15) == (x << 15) | (x >> 49);
  }

  lemma {:induction false} Up18(x: bv64)
    ensures Up(x, Rolled(x, 18), 18)
  {
    assert Rolled(x, 18) == (x << 18) | (x >> 46);
  }

  lemma {:induction false} Up20(x: bv64)
    ensures Up(x, Rolled(x, 20), 20)
  {
    assert Rolled(x, 20) == (x << 20) | (x >> 44);
  }

  lemma {:induction false} Up21(x: bv64)
    ensures Up(x, Rolled(x, 21), 21)
  {
    assert Rolled(x, 21) == (x << 21) | (x >> 43);
  }

  lemma {:induction false} Up25(x: bv64)
    ensures Up(x, Rolled(x, 25), 25)
  {
    assert Rolled(x, 25) == (x << 25) | (x >> 39);
  }

  lemma {:induction false} Up27(x: bv64)
    ensures Up(x, Rolled(x, 27), 27)
  {
    assert Rolled(x, 27) == (x << 27) | (x >> 37);
  }

  lemma {:induction false} Up28(x: bv64)
    ensures Up(x, Rolled(x, 28), 28)
  {
    assert Rolled(x, 28) == (x << 28) | (x >> 36);
  }

  lemma {:induction false} Up36(x: bv64)
    ensures Up(x, Rolled(x, 36), 36)
  {
    assert Rolled(x, 36) == (x << 36) | (x >> 28);
  }

  lemma {:induction false} Up39(x: bv64)
    ensures Up(x, Rolled(x, 39), 39)
  {
    assert Rolled(x, 39) == (x << 39) | (x >> 25);
  }

  lemma {:induction false} Up41(x: bv64)
    ensures Up(x, Rolled(x, 41), 41)
  {
    assert Rolled(x, 41) == (x << 41) | (x >> 23);
  }

  lemma {:induction false} Up43(x: bv64)
    ensures Up(x, Rolled(x, 43), 43)
  {
    assert Rolled(x, 43) == (x << 43) | (x >> 21);
  }

  lemma {:induction false} Up44(x: bv64)
    ensures Up(x, Rolled(x, 44), 44)
  {
    assert Rolled(x, 44) == (x << 44) | (x >> 20);
  }

  lemma {:induction false} Up45(x: bv64)
    ensures Up(x, Rolled(x, 45), 45)
  {
    assert Rolled(x, 45) == (x << 45) | (x >> 19);
  }

  lemma {:induction false} Up55(x: bv64)
    ensures Up(x, Rolled(x, 55), 55)
  {
    assert Rolled(x, 55) == (x << 55) | (x >> 9);
  }

  lemma {:induction false} Up56(x: bv64)
    ensures Up(x, Rolled(x, 56), 56)
  {
    assert Rolled(x, 56) == (x << 56) | (x >> 8);
  }

  lemma {:induction false} Up61(x: bv64)
    ensures Up(x, Rolled(x, 61), 61)
  {
    assert Rolled(x, 61) == (x << 61) | (x >> 3);
  }

  lemma {:induction false} Up62(x: bv64)
    ensures Up(x, Rolled(x, 62), 62)
  {
    assert Rolled(x, 62) == (x << 62) | (x >> 2);
  }

  /** The amounts of the walk: the triangular numbers, modulo 64. */
  function Amount(t: nat): (n: nat)
    ensures n < 64
  {
    (t + 1) * (t + 2) / 2 % 64
  }

  lemma {:induction false} Amounts0(x: bv64, t: nat)
    requires 0 <= t < 4
    ensures 0 < Amount(t) && Up(x, Rolled(x, Amount(t)), Amount(t))
  {
    hide Up, Rolled;
    if t == 0 {
      Up1(x);
    } else if t == 1 {
      Up3(x);
    } else if t == 2 {
      Up6(x);
    } else {
      Up10(x);
    }
  }

  lemma {:induction false} Amounts1(x: bv64, t: nat)
    requires 4 <= t < 8
    ensures 0 < Amount(t) && Up(x, Rolled(x, Amount(t)), Amount(t))
  {
    hide Up, Rolled;
    if t == 4 {
      Up15(x);
    } else if t == 5 {
      Up21(x);
    } else if t == 6 {
      Up28(x);
    } else {
      Up36(x);
    }
  }

  lemma {:induction false} Amounts2(x: bv64, t: nat)
    requires 8 <= t < 12
    ensures 0 < Amount(t) && Up(x, Rolled(x, Amount(t)), Amount(t))
  {
    hide Up, Rolled;
    if t == 8 {
      Up45(x);
    } else if t == 9 {
      Up55(x);
    } else if t == 10 {
      Up2(x);
    } else {
      Up14(x);
    }
  }

  lemma {:induction false} Amounts3(x: bv64, t: nat)
    requires 12 <= t < 16
    ensures 0 < Amount(t) && Up(x, Rolled(x, Amount(t)), Amount(t))
  {
    hide Up, Rolled;
    if t == 12 {
      Up27(x);
    } else if t == 13 {
      Up41(x);
    } else if t == 14 {
      Up56(x);
    } else {
      Up8(x);
    }
  }

  lemma {:induction false} Amounts4(x: bv64, t: nat)
    requires 16 <= t < 20
    ensures 0 < Amount(t) && Up(x, Rolled(x, Amount(t)), Amount(t))
  {
    hide Up, Rolled;
    if t == 16 {
      Up25(x);
    } else if t == 17 {
      Up43(x);
    } else if t == 18 {
      Up62(x);
    } else {
      Up18(x);
    }
  }

  lemma {:induction false} Amounts5(x: bv64, t: nat)
    requires 20 <= t < 24
    ensures 0 < Amount(t) && Up(x, Rolled(x, Amount(t)), Amount(t))
  {
    hide Up, Rolled;
    if t == 20 {
      Up39(x);
    } else if t == 21 {
      Up61(x);
    } else if t == 22 {
      Up20(x);
    } else {
      Up44(x);
    }
  }

  lemma {:induction false} RotlMovesUp(a: Lane, t: nat)
    requires t < 24
    ensures 0 < Amount(t) && Up(a.bits, Rotl(a, Amount(t)).bits, Amount(t))
  {
    hide Up, Rolled, Amount;
    if t < 4 {
      Amounts0(a.bits, t);
    } else if t < 8 {
      Amounts1(a.bits, t);
    } else if t < 12 {
      Amounts2(a.bits, t);
    } else if t < 16 {
      Amounts3(a.bits, t);
    } else if t < 20 {
      Amounts4(a.bits, t);
    } else {
      Amounts5(a.bits, t);
    }
  }
}
