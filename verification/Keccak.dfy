/** The Keccak permutation: the in-place theta, the 24-move rho and pi cycle and the
    in-place chi against the simultaneous definitions of FIPS 202, section 3.2. */
module Keccak {
  import opened ByteType
  import opened Absorb
  import opened Words
  import opened Sponge
  import opened Lanes

  // ---- the step mappings, lane by lane ----

  /** The column and the row of lane i. */
  function Col(i: nat): (x: nat)
    ensures x < 5
  {
    i % 5
  }

  function Row(i: nat): nat {
    i / 5
  }

  function Wrap(x: int): (w: nat)
    ensures w < 5
  {
    x % 5
  }

  /** The lane at column x of row y. */
  function At(s: State, x: int, y: int): Lane {
    s[Wrap(x) + 5 * Wrap(y)]
  }

  /** The parity of a column. */
  function Parity(s: State, x: int): Lane {
    Xor(Xor(Xor(Xor(At(s, x, 0), At(s, x, 1)), At(s, x, 2)), At(s, x, 3)), At(s, x, 4))
  }

  /** What theta adds to column x: the parities of its two neighbours. */
  function Effect(s: State, x: int): Lane {
    Xor(Rotl(Parity(s, x + 1), 1), Parity(s, x - 1))
  }

  function ThetaLane(s: State, i: nat): Lane
    requires i < 25
  {
    Xor(s[i], Effect(s, Col(i)))
  }

  function Theta(s: State): State {
    seq(25, i requires 0 <= i < 25 => ThetaLane(s, i))
  }

  /** The walk over the lanes that gives the rotations: from (1, 0), then (x, y) to
      (y, 2x + 3y). */
  function Walk(t: nat): (int, int) {
    if t == 0 then (1, 0) else var (x, y) := Walk(t - 1); (y, (2 * x + 3 * y) % 5)
  }

  /** The step of the walk, from t on, that reaches a lane. */
  function StepTo(x: int, y: int, t: nat): nat
    decreases 24 - t
  {
    if t >= 24 || Walk(t) == (x, y) then t else StepTo(x, y, t + 1)
  }

  function Offset(x: int, y: int): (n: nat)
    ensures n < 64
  {
    if x == 0 && y == 0 then 0 else var t := StepTo(x, y, 0); (t + 1) * (t + 2) / 2 % 64
  }

  function RhoLane(s: State, i: nat): Lane
    requires i < 25
  {
    Rotl(s[i], Offset(Col(i), Row(i)))
  }

  function Rho(s: State): State {
    seq(25, i requires 0 <= i < 25 => RhoLane(s, i))
  }

  function Pi(s: State): State {
    seq(25, i requires 0 <= i < 25 => At(s, Col(i) + 3 * Row(i), Col(i)))
  }

  function ChiLane(s: State, i: nat): Lane
    requires i < 25
  {
    Xor(s[i], NotAnd(At(s, Col(i) + 1, Row(i)), At(s, Col(i) + 2, Row(i))))
  }

  function Chi(s: State): State {
    seq(25, i requires 0 <= i < 25 => ChiLane(s, i))
  }

  // ---- the step mappings, bit by bit ----

  /** Section 3.2.1 of FIPS 202: theta flips a bit when the parities of its neighbour columns,
      the one on the right turned up by one place, differ. */
  lemma {:induction false} ThetaBits(s: State, i: nat, z: bv7) returns (turned: Lane)
    requires i < 25 && z < 64
    ensures Up(Parity(s, Col(i) + 1).bits, turned.bits, 1)
    ensures Bit(Theta(s)[i], z) == (Bit(s[i], z) != (Bit(turned, z) != Odd(s, Col(i) - 1, z)))
  {
    hide Bit, Rotl, Rolled, Xor, Parity, Odd, Up;
    var x: int := Col(i);
    turned := Rotl(Parity(s, x + 1), 1);
    RotlMovesUp(Parity(s, x + 1), 0);
    assert Amount(0) == 1;
    XorBit(s[i], Effect(s, x), z);
    XorBit(turned, Parity(s, x - 1), z);
    ParityBit(s, x - 1, z);
  }

  /** An odd number of bits is set at place z of column x. */
  predicate Odd(s: State, x: int, z: bv7)
    requires z < 64
  {
    var a, b, c, d, e := At(s, x, 0), At(s, x, 1), At(s, x, 2), At(s, x, 3), At(s, x, 4);
    Bit(a, z) != (Bit(b, z) != (Bit(c, z) != (Bit(d, z) != Bit(e, z))))
  }

  lemma {:induction false} ParityBit(s: State, x: int, z: bv7)
    requires z < 64
    ensures Bit(Parity(s, x), z) == Odd(s, x, z)
  {
    hide Bit, Xor;
    var a, b, c, d, e := At(s, x, 0), At(s, x, 1), At(s, x, 2), At(s, x, 3), At(s, x, 4);
    XorBit(a, b, z);
    XorBit(Xor(a, b), c, z);
    XorBit(Xor(Xor(a, b), c), d, z);
    XorBit(Xor(Xor(Xor(a, b), c), d), e, z);
  }

  /** Section 3.2.2: rho turns the lane that the walk reaches at step t up by the amount that
      belongs to t. */
  lemma {:induction false} RhoBits(s: State, t: nat)
    requires t < 24
    ensures var (x, y) := Walk(t);
      var i := x + 5 * y;
      0 <= i < 25 && 0 < Amount(t) && Up(s[i].bits, Rho(s)[i].bits, Amount(t))
  {
    hide Rotl, Up, Walk, Offset;
    var (x, y) := Walk(t);
    WalkRange(t);
    OffsetOnWalk(t);
    assert Col(x + 5 * y) == x && Row(x + 5 * y) == y;
    RotlMovesUp(s[x + 5 * y], t);
  }

  /** Section 3.2.3: pi brings the lane of column x and row y to column y and row 2x + 3y. */
  lemma {:induction false} PiSends(s: State, x: nat, y: nat)
    requires x < 5 && y < 5
    ensures At(Pi(s), y, 2 * x + 3 * y) == At(s, x, y)
  {
    hide Pi;
    var y' := Wrap(2 * x + 3 * y);
    assert y' == 2 * x + 3 * y - 5 * ((2 * x + 3 * y) / 5);
    Places(y, y');
    assert Wrap(y + 3 * y') == x;
    PiAt(s, y + 5 * y');
  }

  lemma {:induction false} Places(x: nat, y: nat)
    requires x < 5 && y < 5
    ensures Col(x + 5 * y) == x && Row(x + 5 * y) == y && Wrap(x) == x
  {
  }

  lemma {:induction false} PiAt(s: State, i: nat)
    requires i < 25
    ensures Pi(s)[i] == At(s, Col(i) + 3 * Row(i), Col(i))
  {
  }

  /** Section 3.2.4: chi flips a bit when the next one in its row is clear and the one after
      that is set. */
  lemma {:induction false} ChiBits(s: State, i: nat, z: bv7)
    requires i < 25 && z < 64
    ensures var next, second := At(s, Col(i) + 1, Row(i)), At(s, Col(i) + 2, Row(i));
      Bit(Chi(s)[i], z) == (Bit(s[i], z) != (!Bit(next, z) && Bit(second, z)))
  {
    hide Bit, Xor, NotAnd;
    var next, second := At(s, Col(i) + 1, Row(i)), At(s, Col(i) + 2, Row(i));
    XorBit(s[i], NotAnd(next, second), z);
    NotAndBit(next, second, z);
  }

  // ---- the walk's offsets ----

  lemma {:induction false} Walk0()
    ensures Walk(0) == (1, 0) && Walk(1) == (0, 2) && Walk(2) == (2, 1) && Walk(3) == (1, 2)
    ensures Walk(4) == (2, 3) && Walk(5) == (3, 3) && Walk(6) == (3, 0) && Walk(7) == (0, 1)
    ensures Walk(8) == (1, 3) && Walk(9) == (3, 1) && Walk(10) == (1, 4) && Walk(11) == (4, 4)
  {
  }

  lemma {:induction false} Walk12()
    ensures Walk(12) == (4, 0) && Walk(13) == (0, 3) && Walk(14) == (3, 4) && Walk(15) == (4, 3)
    ensures Walk(16) == (3, 2) && Walk(17) == (2, 2) && Walk(18) == (2, 0) && Walk(19) == (0, 4)
    ensures Walk(20) == (4, 2) && Walk(21) == (2, 4) && Walk(22) == (4, 1) && Walk(23) == (1, 1)
  {
    Walk0();
  }

  lemma {:induction false} WalkRange(t: nat)
    ensures 0 <= Walk(t).0 < 5 && 0 <= Walk(t).1 < 5
  {
    if t > 0 {
      WalkRange(t - 1);
    }
  }

  /** The walk does not come back to its start before all lanes but (0, 0) are visited. */
  lemma {:induction false} NoReturn(t: nat)
    requires 0 < t < 24
    ensures Walk(t) != (1, 0)
  {
    hide Walk;
    Walk0();
    Walk12();
  }

  /** A step of the walk can be undone. */
  lemma {:induction false} OneBack(x: int, y: int, x': int, y': int)
    requires 0 <= x < 5 && 0 <= y < 5 && 0 <= x' < 5 && 0 <= y' < 5
    requires y == y' && (2 * x + 3 * y) % 5 == (2 * x' + 3 * y') % 5
    ensures x == x'
  {
  }

  lemma {:induction false} WalkInjective(i: nat, j: nat)
    requires i < j < 24
    ensures Walk(i) != Walk(j)
  {
    if i == 0 {
      NoReturn(j);
    } else if Walk(i) == Walk(j) {
      WalkRange(i - 1);
      WalkRange(j - 1);
      OneBack(Walk(i - 1).0, Walk(i - 1).1, Walk(j - 1).0, Walk(j - 1).1);
      WalkInjective(i - 1, j - 1);
    }
  }

  lemma {:induction false} StepToWalk(t: nat, from: nat)
    requires from <= t < 24
    ensures StepTo(Walk(t).0, Walk(t).1, from) == t
    decreases t - from
  {
    hide Walk;
    if from < t {
      WalkInjective(from, t);
      StepToWalk(t, from + 1);
    }
  }

  lemma {:induction false} OffsetOnWalk(t: nat)
    requires t < 24
    ensures Walk(t) != (0, 0) && Offset(Walk(t).0, Walk(t).1) == (t + 1) * (t + 2) / 2 % 64
  {
    hide Walk;
    StepToWalk(t, 0);
    NotOrigin(t);
  }

  lemma {:induction false} NotOrigin(t: nat)
    ensures Walk(t) != (0, 0)
  {
    if t > 0 {
      WalkRange(t - 1);
      NotOrigin(t - 1);
    }
  }

  /** Lane i after rho and pi is lane j before, rotated by n, when the walk reaches it in step t. */
  lemma {:induction false} Moved(s: State, i: nat, j: nat, t: nat, n: nat)
    requires i < 25 && j < 25 && t < 24 && j == Wrap(Col(i) + 3 * Row(i)) + 5 * Col(i) && Walk(t) == (Col(j), Row(j))
    requires n == (t + 1) * (t + 2) / 2 % 64
    ensures Pi(Rho(s))[i] == Rotl(s[j], n)
  {
    hide Rotl, Walk, Offset;
    OffsetOnWalk(t);
    assert Wrap(Col(i)) == Col(i);
  }

  // ---- the source's in-place steps ----

  lemma {:induction false} ParityLanes(s: State, x: int)
    requires 0 <= x < 5
    ensures Parity(s, x) == Xor(Xor(Xor(Xor(s[x], s[x + 5]), s[x + 10]), s[x + 15]), s[x + 20])
    ensures Parity(s, x + 5) == Parity(s, x) && Parity(s, x - 5) == Parity(s, x)
  {
    hide Xor, Wrap;
    Wraps(x);
    Wraps(0);
    Wraps(1);
    Wraps(2);
    Wraps(3);
    Wraps(4);
  }

  lemma {:induction false} Wraps(x: int)
    requires 0 <= x < 5
    ensures Wrap(x) == x && Wrap(x + 5) == x && Wrap(x - 5) == x
  {
  }

  /** The parities of the five columns. */
  method Parities(hash: array<Lane>) returns (c: array<Lane>)
    requires hash.Length == 25
    ensures fresh(c) && c.Length == 5 && forall x | 0 <= x < 5 :: c[x] == Parity(hash[..], x)
  {
    hide Xor, Parity;
    c := new Lane[5](_ => Lane(0));
    for i := 0 to 5
      invariant hash[..] == old(hash[..])
      invariant forall x | 0 <= x < i :: c[x] == Parity(hash[..], x)
    {
      ParityLanes(hash[..], i);
      c[i] := Xor(Xor(Xor(Xor(hash[i], hash[i + 5]), hash[i + 10]), hash[i + 15]), hash[i + 20]);
    }
  }

  /** What theta adds, from the parities. */
  method Effects(c: array<Lane>, ghost s: State) returns (d: array<Lane>)
    requires c.Length == 5 && forall x | 0 <= x < 5 :: c[x] == Parity(s, x)
    ensures fresh(d) && d.Length == 5 && forall x | 0 <= x < 5 :: d[x] == Effect(s, x)
  {
    hide Xor, Parity, Rotl;
    ParityLanes(s, 0);
    ParityLanes(s, 4);
    var c0, c1, c2, c3, c4 := c[0], c[1], c[2], c[3], c[4];
    d := new Lane[5](_ => Lane(0));
    d[0] := Xor(Rotl(c1, 1), c4);
    d[1] := Xor(Rotl(c2, 1), c0);
    d[2] := Xor(Rotl(c3, 1), c1);
    d[3] := Xor(Rotl(c4, 1), c2);
    d[4] := Xor(Rotl(c0, 1), c3);
    assert d[0] == Effect(s, 0) && d[1] == Effect(s, 1) && d[2] == Effect(s, 2) && d[3] == Effect(s, 3);
    assert d[4] == Effect(s, 4);
  }

  /** Theta on the first i columns only. */
  function ThetaUpTo(s: State, i: nat): State {
    seq(25, k requires 0 <= k < 25 => if Col(k) < i then ThetaLane(s, k) else s[k])
  }

  lemma {:induction false} NextColumn(s: State, i: nat, e: Lane)
    requires i < 5 && e == Effect(s, i)
    ensures var t := ThetaUpTo(s, i);
      t[i := Xor(t[i], e)][i + 5 := Xor(t[i + 5], e)][i + 10 := Xor(t[i + 10], e)]
       [i + 15 := Xor(t[i + 15], e)][i + 20 := Xor(t[i + 20], e)] == ThetaUpTo(s, i + 1)
  {
    hide Xor, Effect, Col;
    forall k | 0 <= k < 25 ensures Col(k) == i <==> k in {i, i + 5, i + 10, i + 15, i + 20} {
      ColumnOf(k, i);
    }
  }

  lemma {:induction false} ColumnOf(k: nat, i: nat)
    requires k < 25 && i < 5
    ensures Col(k) == i <==> k in {i, i + 5, i + 10, i + 15, i + 20}
  {
  }

  lemma {:induction false} ThetaEnds(s: State)
    ensures ThetaUpTo(s, 0) == s && ThetaUpTo(s, 5) == Theta(s)
  {
    hide Xor, Effect;
  }

  /** Column parities first, then their effects added to every lane. */
  method ThetaInPlace(hash: array<Lane>)
    requires hash.Length == 25
    modifies hash
    ensures hash[..] == Theta(old(hash[..]))
  {
    hide Xor, Rotl, Effect, Parity, Theta, ThetaUpTo;
    ghost var s: State := hash[..];
    var c := Parities(hash);
    var d := Effects(c, s);
    ThetaEnds(s);
    for i := 0 to 5
      invariant forall x | 0 <= x < 5 :: d[x] == Effect(s, x)
      invariant hash[..] == ThetaUpTo(s, i)
    {
      ghost var t := hash[..];
      NextColumn(s, i, d[i]);
      hash[i] := Xor(hash[i], d[i]);
      hash[i + 5] := Xor(hash[i + 5], d[i]);
      hash[i + 10] := Xor(hash[i + 10], d[i]);
      hash[i + 15] := Xor(hash[i + 15], d[i]);
      hash[i + 20] := Xor(hash[i + 20], d[i]);
      assert hash[..] == t[i := Xor(t[i], d[i])][i + 5 := Xor(t[i + 5], d[i])][i + 10 := Xor(t[i + 10], d[i])]
                          [i + 15 := Xor(t[i + 15], d[i])][i + 20 := Xor(t[i + 20], d[i])];
    }
  }

  method FirstMoves(hash: array<Lane>)
    requires hash.Length == 25
    modifies hash
    ensures hash[1] == Rotl(old(hash[6]), 44) && hash[6] == Rotl(old(hash[9]), 20)
    ensures hash[9] == Rotl(old(hash[22]), 61) && hash[22] == Rotl(old(hash[14]), 39)
    ensures hash[14] == Rotl(old(hash[20]), 18) && hash[20] == Rotl(old(hash[2]), 62)
    ensures hash[2] == Rotl(old(hash[12]), 43) && hash[12] == Rotl(old(hash[13]), 25)
    ensures forall k | 0 <= k < 25 && k !in {1, 6, 9, 22, 14, 20, 2, 12} :: hash[k] == old(hash[k])
  {
    hide Rotl;
    hash[1] := Rotl(hash[6], 44);
    hash[6] := Rotl(hash[9], 20);
    hash[9] := Rotl(hash[22], 61);
    hash[22] := Rotl(hash[14], 39);
    hash[14] := Rotl(hash[20], 18);
    hash[20] := Rotl(hash[2], 62);
    hash[2] := Rotl(hash[12], 43);
    hash[12] := Rotl(hash[13], 25);
  }

  method MiddleMoves(hash: array<Lane>)
    requires hash.Length == 25
    modifies hash
    ensures hash[13] == Rotl(old(hash[19]), 8) && hash[19] == Rotl(old(hash[23]), 56)
    ensures hash[23] == Rotl(old(hash[15]), 41) && hash[15] == Rotl(old(hash[4]), 27)
    ensures hash[4] == Rotl(old(hash[24]), 14) && hash[24] == Rotl(old(hash[21]), 2)
    ensures hash[21] == Rotl(old(hash[8]), 55) && hash[8] == Rotl(old(hash[16]), 45)
    ensures forall k | 0 <= k < 25 && k !in {13, 19, 23, 15, 4, 24, 21, 8} :: hash[k] == old(hash[k])
  {
    hide Rotl;
    hash[13] := Rotl(hash[19], 8);
    hash[19] := Rotl(hash[23], 56);
    hash[23] := Rotl(hash[15], 41);
    hash[15] := Rotl(hash[4], 27);
    hash[4] := Rotl(hash[24], 14);
    hash[24] := Rotl(hash[21], 2);
    hash[21] := Rotl(hash[8], 55);
    hash[8] := Rotl(hash[16], 45);
  }

  method FinalMoves(hash: array<Lane>, first: Lane)
    requires hash.Length == 25
    modifies hash
    ensures hash[16] == Rotl(old(hash[5]), 36) && hash[5] == Rotl(old(hash[3]), 28)
    ensures hash[3] == Rotl(old(hash[18]), 21) && hash[18] == Rotl(old(hash[17]), 15)
    ensures hash[17] == Rotl(old(hash[11]), 10) && hash[11] == Rotl(old(hash[7]), 6)
    ensures hash[7] == Rotl(old(hash[10]), 3) && hash[10] == Rotl(first, 1)
    ensures forall k | 0 <= k < 25 && k !in {16, 5, 3, 18, 17, 11, 7, 10} :: hash[k] == old(hash[k])
  {
    hide Rotl;
    hash[16] := Rotl(hash[5], 36);
    hash[5] := Rotl(hash[3], 28);
    hash[3] := Rotl(hash[18], 21);
    hash[18] := Rotl(hash[17], 15);
    hash[17] := Rotl(hash[11], 10);
    hash[11] := Rotl(hash[7], 6);
    hash[7] := Rotl(hash[10], 3);
    hash[10] := Rotl(first, 1);
  }

  /** One cycle through 24 lanes; only the first lane is kept aside. */
  method RhoPiInPlace(hash: array<Lane>)
    requires hash.Length == 25
    modifies hash
    ensures hash[..] == Pi(Rho(old(hash[..])))
  {
    hide Rotl, Pi, Rho, Walk;
    ghost var s: State := hash[..];
    var first := hash[1];
    FirstMoves(hash);
    MiddleMoves(hash);
    FinalMoves(hash, first);
    RotlZero(s[0]);
    assert MovedRow(hash[..], s, 0, 0, 0, 6, 44, 12, 43, 18, 21, 24, 14);
    assert MovedRow(hash[..], s, 5, 3, 28, 9, 20, 10, 3, 16, 45, 22, 61);
    assert MovedRow(hash[..], s, 10, 1, 1, 7, 6, 13, 25, 19, 8, 20, 18);
    assert MovedRow(hash[..], s, 15, 4, 27, 5, 36, 11, 10, 17, 15, 23, 56);
    assert MovedRow(hash[..], s, 20, 2, 62, 8, 55, 14, 39, 15, 41, 21, 2);
    RowsMove(s);
    MovedOnce(hash[..], Pi(Rho(s)), s);
  }

  lemma {:induction false} RotlZero(a: Lane)
    ensures Rotl(a, 0) == a
  {
  }

  /** A row of t holds these lanes of s, rotated. */
  ghost predicate MovedRow(t: State, s: State, i: nat, j0: nat, n0: nat, j1: nat, n1: nat, j2: nat, n2: nat,
                           j3: nat, n3: nat, j4: nat, n4: nat)
  {
    && i + 4 < 25 && j0 < 25 && j1 < 25 && j2 < 25 && j3 < 25 && j4 < 25
    && n0 < 64 && n1 < 64 && n2 < 64 && n3 < 64 && n4 < 64
    && t[i] == Rotl(s[j0], n0) && t[i + 1] == Rotl(s[j1], n1) && t[i + 2] == Rotl(s[j2], n2)
    && t[i + 3] == Rotl(s[j3], n3) && t[i + 4] == Rotl(s[j4], n4)
  }

  /** Where every lane goes, and by how much it is rotated. */
  ghost predicate MovedTo(t: State, s: State) {
    && MovedRow(t, s, 0, 0, 0, 6, 44, 12, 43, 18, 21, 24, 14)
    && MovedRow(t, s, 5, 3, 28, 9, 20, 10, 3, 16, 45, 22, 61)
    && MovedRow(t, s, 10, 1, 1, 7, 6, 13, 25, 19, 8, 20, 18)
    && MovedRow(t, s, 15, 4, 27, 5, 36, 11, 10, 17, 15, 23, 56)
    && MovedRow(t, s, 20, 2, 62, 8, 55, 14, 39, 15, 41, 21, 2)
  }

  lemma {:induction false} SameRows(a: State, b: State, s: State, i: nat, j0: nat, n0: nat, j1: nat, n1: nat,
                                    j2: nat, n2: nat, j3: nat, n3: nat, j4: nat, n4: nat)
    requires MovedRow(a, s, i, j0, n0, j1, n1, j2, n2, j3, n3, j4, n4)
    requires MovedRow(b, s, i, j0, n0, j1, n1, j2, n2, j3, n3, j4, n4)
    ensures a[i..i + 5] == b[i..i + 5]
  {
    hide Rotl;
  }

  lemma {:induction false} MovedOnce(a: State, b: State, s: State)
    requires MovedTo(a, s) && MovedTo(b, s)
    ensures a == b
  {
    hide Rotl, MovedRow;
    SameRows(a, b, s, 0, 0, 0, 6, 44, 12, 43, 18, 21, 24, 14);
    SameRows(a, b, s, 5, 3, 28, 9, 20, 10, 3, 16, 45, 22, 61);
    SameRows(a, b, s, 10, 1, 1, 7, 6, 13, 25, 19, 8, 20, 18);
    SameRows(a, b, s, 15, 4, 27, 5, 36, 11, 10, 17, 15, 23, 56);
    SameRows(a, b, s, 20, 2, 62, 8, 55, 14, 39, 15, 41, 21, 2);
    FiveRows(a);
    FiveRows(b);
  }

  lemma {:induction false} FiveRows(a: State)
    ensures a == a[0..5] + a[5..10] + a[10..15] + a[15..20] + a[20..25]
  {
  }

  lemma {:induction false} RowsMove(s: State)
    ensures MovedTo(Pi(Rho(s)), s)
  {
    hide MovedRow, Pi, Rho;
    RowMoves0(s);
    RowMoves1(s);
    RowMoves2(s);
    RowMoves3(s);
    RowMoves4(s);
  }

  lemma {:induction false} RowMoves0(s: State)
    ensures MovedRow(Pi(Rho(s)), s, 0, 0, 0, 6, 44, 12, 43, 18, 21, 24, 14)
  {
    hide Rotl, Pi, Rho, Walk;
    Walk0();
    Walk12();
    OriginStays(s);
    Moved(s, 1, 6, 23, 44);
    Moved(s, 2, 12, 17, 43);
    Moved(s, 3, 18, 5, 21);
    Moved(s, 4, 24, 11, 14);
  }

  lemma {:induction false} RowMoves1(s: State)
    ensures MovedRow(Pi(Rho(s)), s, 5, 3, 28, 9, 20, 10, 3, 16, 45, 22, 61)
  {
    hide Rotl, Pi, Rho, Walk;
    Walk0();
    Walk12();
    Moved(s, 5, 3, 6, 28);
    Moved(s, 6, 9, 22, 20);
    Moved(s, 7, 10, 1, 3);
    Moved(s, 8, 16, 8, 45);
    Moved(s, 9, 22, 21, 61);
  }

  lemma {:induction false} RowMoves2(s: State)
    ensures MovedRow(Pi(Rho(s)), s, 10, 1, 1, 7, 6, 13, 25, 19, 8, 20, 18)
  {
    hide Rotl, Pi, Rho, Walk;
    Walk0();
    Walk12();
    Moved(s, 10, 1, 0, 1);
    Moved(s, 11, 7, 2, 6);
    Moved(s, 12, 13, 16, 25);
    Moved(s, 13, 19, 15, 8);
    Moved(s, 14, 20, 19, 18);
  }

  lemma {:induction false} RowMoves3(s: State)
    ensures MovedRow(Pi(Rho(s)), s, 15, 4, 27, 5, 36, 11, 10, 17, 15, 23, 56)
  {
    hide Rotl, Pi, Rho, Walk;
    Walk0();
    Walk12();
    Moved(s, 15, 4, 12, 27);
    Moved(s, 16, 5, 7, 36);
    Moved(s, 17, 11, 3, 10);
    Moved(s, 18, 17, 4, 15);
    Moved(s, 19, 23, 14, 56);
  }

  lemma {:induction false} RowMoves4(s: State)
    ensures MovedRow(Pi(Rho(s)), s, 20, 2, 62, 8, 55, 14, 39, 15, 41, 21, 2)
  {
    hide Rotl, Pi, Rho, Walk;
    Walk0();
    Walk12();
    Moved(s, 20, 2, 18, 62);
    Moved(s, 21, 8, 9, 55);
    Moved(s, 22, 14, 20, 39);
    Moved(s, 23, 15, 13, 41);
    Moved(s, 24, 21, 10, 2);
  }

  lemma {:induction false} OriginStays(s: State)
    ensures Pi(Rho(s))[0] == Rotl(s[0], 0)
  {
    hide Rotl;
  }

  /** Chi on the lanes below i only. */
  function ChiUpTo(s: State, i: nat): State {
    seq(25, k requires 0 <= k < 25 => if k < i then ChiLane(s, k) else s[k])
  }

  lemma {:induction false} ChiRow(s: State, y: nat)
    requires y < 5
    ensures var i := 5 * y;
      && ChiLane(s, i) == Xor(s[i], NotAnd(s[i + 1], s[i + 2]))
      && ChiLane(s, i + 1) == Xor(s[i + 1], NotAnd(s[i + 2], s[i + 3]))
      && ChiLane(s, i + 2) == Xor(s[i + 2], NotAnd(s[i + 3], s[i + 4]))
      && ChiLane(s, i + 3) == Xor(s[i + 3], NotAnd(s[i + 4], s[i]))
      && ChiLane(s, i + 4) == Xor(s[i + 4], NotAnd(s[i], s[i + 1]))
  {
    hide Xor, NotAnd, ChiLane;
    ChiAt(s, 0, y);
    ChiAt(s, 1, y);
    ChiAt(s, 2, y);
    ChiAt(s, 3, y);
    ChiAt(s, 4, y);
  }

  lemma {:induction false} ChiAt(s: State, x: nat, y: nat)
    requires x < 5 && y < 5
    ensures ChiLane(s, x + 5 * y) == Xor(s[x + 5 * y], NotAnd(s[(if x < 4 then x + 1 else x - 4) + 5 * y],
                                                          s[(if x < 3 then x + 2 else x - 3) + 5 * y]))
  {
    hide Xor, NotAnd, Wrap, Col, Row;
    Coordinates(x, y);
    Wraps(y);
    if x < 4 {
      Wraps(x + 1);
    } else {
      Wraps(0);
    }
    if x < 3 {
      Wraps(x + 2);
    } else {
      Wraps(x - 3);
    }
  }

  lemma {:induction false} Coordinates(x: nat, y: nat)
    requires x < 5 && y < 5
    ensures Col(x + 5 * y) == x && Row(x + 5 * y) == y
  {
  }

  lemma {:induction false} NextRow(s: State, y: nat)
    requires y < 5
    ensures var i := 5 * y;
      ChiUpTo(s, i)[i := ChiLane(s, i)][i + 1 := ChiLane(s, i + 1)][i + 2 := ChiLane(s, i + 2)]
                   [i + 3 := ChiLane(s, i + 3)][i + 4 := ChiLane(s, i + 4)] == ChiUpTo(s, i + 5)
  {
    hide ChiLane;
  }

  lemma {:induction false} ChiEnds(s: State)
    ensures ChiUpTo(s, 0) == s && ChiUpTo(s, 25) == Chi(s)
  {
    hide Xor, NotAnd;
  }

  /** Row by row; the first two lanes of a row are kept aside. */
  method ChiInPlace(hash: array<Lane>)
    requires hash.Length == 25
    modifies hash
    ensures hash[..] == Chi(old(hash[..]))
  {
    hide Xor, NotAnd, Chi, ChiUpTo, ChiLane;
    ghost var s: State := hash[..];
    ChiEnds(s);
    var i := 0;
    ghost var y := 0;
    while i < 25
      invariant 0 <= y <= 5 && i == 5 * y
      invariant hash[..] == ChiUpTo(s, i)
    {
      ghost var t := hash[..];
      ChiRow(s, y);
      NextRow(s, y);
      SameRow(s, y);
      var a1, a2 := hash[i], hash[i + 1];
      hash[i] := Xor(hash[i], NotAnd(a2, hash[i + 2]));
      hash[i + 1] := Xor(hash[i + 1], NotAnd(hash[i + 2], hash[i + 3]));
      hash[i + 2] := Xor(hash[i + 2], NotAnd(hash[i + 3], hash[i + 4]));
      hash[i + 3] := Xor(hash[i + 3], NotAnd(hash[i + 4], a1));
      hash[i + 4] := Xor(hash[i + 4], NotAnd(a1, a2));
      assert hash[..] == t[i := ChiLane(s, i)][i + 1 := ChiLane(s, i + 1)][i + 2 := ChiLane(s, i + 2)]
                          [i + 3 := ChiLane(s, i + 3)][i + 4 := ChiLane(s, i + 4)];
      i, y := i + 5, y + 1;
    }
  }

  lemma {:induction false} SameRow(s: State, y: nat)
    requires y < 5
    ensures forall j | 5 * y <= j < 5 * y + 5 :: ChiUpTo(s, 5 * y)[j] == s[j]
  {
    hide ChiLane;
  }

  // ---- rounds and blocks ----

  const ROUND_CONSTANTS: seq<bv64> := [
    0x0000_0000_0000_0001, 0x0000_0000_0000_8082, 0x8000_0000_0000_808A, 0x8000_0000_8000_8000,
    0x0000_0000_0000_808B, 0x0000_0000_8000_0001, 0x8000_0000_8000_8081, 0x8000_0000_0000_8009,
    0x0000_0000_0000_008A, 0x0000_0000_0000_0088, 0x0000_0000_8000_8009, 0x0000_0000_8000_000A,
    0x0000_0000_8000_808B, 0x8000_0000_0000_008B, 0x8000_0000_0000_8089, 0x8000_0000_0000_8003,
    0x8000_0000_0000_8002, 0x8000_0000_0000_0080, 0x0000_0000_0000_800A, 0x8000_0000_8000_000A,
    0x8000_0000_8000_8081, 0x8000_0000_0000_8080, 0x0000_0000_8000_0001, 0x8000_0000_8000_8008
  ]

  function RoundConstant(i: nat): Lane {
    if i < |ROUND_CONSTANTS| then Lane(ROUND_CONSTANTS[i]) else Lane(0)
  }

  function Iota(s: State, i: nat): State {
    s[0 := Xor(s[0], RoundConstant(i))]
  }

  function Round(s: State, i: nat): State {
    Iota(Chi(Pi(Rho(Theta(s)))), i)
  }

  function Rounds(s: State, n: nat): State {
    if n == 0 then s else Round(Rounds(s, n - 1), n - 1)
  }

  /** The whole permutation. */
  function KeccakF(s: State): State {
    Rounds(s, 24)
  }

  method PermuteInPlace(hash: array<Lane>)
    requires hash.Length == 25
    modifies hash
    ensures hash[..] == KeccakF(old(hash[..]))
  {
    hide Theta, Rho, Pi, Chi, Xor, RoundConstant;
    for i := 0 to 24
      invariant hash[..] == Rounds(old(hash[..]), i)
    {
      ThetaInPlace(hash);
      RhoPiInPlace(hash);
      ChiInPlace(hash);
      ghost var s: State := hash[..];
      hash[0] := Xor(hash[0], RoundConstant(i));
      assert hash[..] == Iota(s, i);
    }
  }

  /** One block, in place: the same as the sponge's step with this permutation. */
  method ProcessInPlace(hash: array<Lane>, block: seq<byte>)
    requires hash.Length == 25 && |block| <= 200 && |block| % 8 == 0
    modifies hash
    ensures hash[..] == Process(KeccakF)(old(hash[..]), block)
  {
    hide KeccakF, WordsOf, Xor, LaneOf;
    var ws := WordsOf(LittleEndian, 8, block);
    ghost var s: State := hash[..];
    for i := 0 to |ws|
      invariant forall k | 0 <= k < 25 :: hash[k] == if k < i then Xor(s[k], LaneOf(ws[k])) else s[k]
    {
      hash[i] := Xor(hash[i], LaneOf(ws[i]));
    }
    assert hash[..] == Xored(s, ws);
    PermuteInPlace(hash);
  }

  // ---- where the round constants come from ----

  /** One step of the standard's shift register. */
  function Feed(r: bv8): bv8 {
    if r & 0x80 != 0 then (r << 1) ^ 0x71 else r << 1
  }

  function Register(t: nat): bv8 {
    if t == 0 then 1 else Feed(Register(t - 1))
  }

  /** The register's output at step t. */
  predicate Out(t: nat) {
    Register(t) & 1 == 1
  }

  function OutputAt(t: nat, place: bv64): bv64 {
    if Out(t) then place else 0
  }

  /** The constant of round i: seven outputs at the places 2^j - 1. */
  function StandardConstant(i: nat): bv64 {
    OutputAt(7 * i, 0x1) ^ OutputAt(7 * i + 1, 0x2) ^ OutputAt(7 * i + 2, 0x8) ^ OutputAt(7 * i + 3, 0x80)
    ^ OutputAt(7 * i + 4, 0x8000) ^ OutputAt(7 * i + 5, 0x8000_0000) ^ OutputAt(7 * i + 6, 0x8000_0000_0000_0000)
  }

  // The register's outputs, four rounds at a time, a round a line.

  lemma {:induction false} Outputs0()
    ensures Out(0) && !Out(1) && !Out(2) && !Out(3) && !Out(4) && !Out(5) && !Out(6)
    ensures !Out(7) && Out(8) && !Out(9) && Out(10) && Out(11) && !Out(12) && !Out(13)
    ensures !Out(14) && Out(15) && Out(16) && Out(17) && Out(18) && !Out(19) && Out(20)
    ensures !Out(21) && !Out(22) && !Out(23) && !Out(24) && Out(25) && Out(26) && Out(27)
    ensures Register(28) == 0xDF
  {
  }

  lemma {:induction false} Outputs1()
    ensures Out(28) && Out(29) && Out(30) && Out(31) && Out(32) && !Out(33) && !Out(34)
    ensures Out(35) && !Out(36) && !Out(37) && !Out(38) && !Out(39) && Out(40) && !Out(41)
    ensures Out(42) && !Out(43) && !Out(44) && Out(45) && Out(46) && Out(47) && Out(48)
    ensures Out(49) && !Out(50) && Out(51) && !Out(52) && Out(53) && !Out(54) && Out(55)
    ensures Register(56) == 0xCA
  {
    Outputs0();
  }

  lemma {:induction false} Outputs2()
    ensures !Out(56) && Out(57) && Out(58) && Out(59) && !Out(60) && !Out(61) && !Out(62)
    ensures !Out(63) && !Out(64) && Out(65) && Out(66) && !Out(67) && !Out(68) && !Out(69)
    ensures Out(70) && !Out(71) && Out(72) && !Out(73) && Out(74) && Out(75) && !Out(76)
    ensures !Out(77) && Out(78) && Out(79) && !Out(80) && !Out(81) && Out(82) && !Out(83)
    ensures Register(84) == 0xD5
  {
    Outputs1();
  }

  lemma {:induction false} Outputs3()
    ensures Out(84) && Out(85) && Out(86) && Out(87) && Out(88) && Out(89) && !Out(90)
    ensures Out(91) && Out(92) && Out(93) && Out(94) && !Out(95) && !Out(96) && Out(97)
    ensures Out(98) && !Out(99) && Out(100) && Out(101) && Out(102) && !Out(103) && Out(104)
    ensures Out(105) && Out(106) && !Out(107) && !Out(108) && Out(109) && !Out(110) && Out(111)
    ensures Register(112) == 0xAA
  {
    Outputs2();
  }

  lemma {:induction false} Outputs4()
    ensures !Out(112) && Out(113) && !Out(114) && !Out(115) && Out(116) && !Out(117) && Out(118)
    ensures !Out(119) && !Out(120) && !Out(121) && Out(122) && !Out(123) && !Out(124) && Out(125)
    ensures !Out(126) && Out(127) && Out(128) && !Out(129) && Out(130) && !Out(131) && !Out(132)
    ensures !Out(133) && Out(134) && Out(135) && !Out(136) && !Out(137) && Out(138) && Out(139)
    ensures Register(140) == 0x37
  {
    Outputs3();
  }

  lemma {:induction false} Outputs5()
    ensures Out(140) && !Out(141) && !Out(142) && Out(143) && Out(144) && Out(145) && Out(146)
    ensures !Out(147) && !Out(148) && !Out(149) && Out(150) && Out(151) && !Out(152) && Out(153)
    ensures Out(154) && !Out(155) && !Out(156) && !Out(157) && !Out(158) && Out(159) && !Out(160)
    ensures !Out(161) && !Out(162) && Out(163) && !Out(164) && Out(165) && Out(166) && Out(167)
    ensures Register(168) == 0x8E
  {
    Outputs4();
  }

  lemma {:induction false} Constants()
    ensures StandardConstant(0) == 0x0000_0000_0000_0001 && StandardConstant(1) == 0x0000_0000_0000_8082
    ensures StandardConstant(2) == 0x8000_0000_0000_808A && StandardConstant(3) == 0x8000_0000_8000_8000
    ensures StandardConstant(4) == 0x0000_0000_0000_808B && StandardConstant(5) == 0x0000_0000_8000_0001
    ensures StandardConstant(6) == 0x8000_0000_8000_8081 && StandardConstant(7) == 0x8000_0000_0000_8009
    ensures StandardConstant(8) == 0x0000_0000_0000_008A && StandardConstant(9) == 0x0000_0000_0000_0088
    ensures StandardConstant(10) == 0x0000_0000_8000_8009 && StandardConstant(11) == 0x0000_0000_8000_000A
    ensures StandardConstant(12) == 0x0000_0000_8000_808B && StandardConstant(13) == 0x8000_0000_0000_008B
    ensures StandardConstant(14) == 0x8000_0000_0000_8089 && StandardConstant(15) == 0x8000_0000_0000_8003
    ensures StandardConstant(16) == 0x8000_0000_0000_8002 && StandardConstant(17) == 0x8000_0000_0000_0080
    ensures StandardConstant(18) == 0x0000_0000_0000_800A && StandardConstant(19) == 0x8000_0000_8000_000A
    ensures StandardConstant(20) == 0x8000_0000_8000_8081 && StandardConstant(21) == 0x8000_0000_0000_8080
    ensures StandardConstant(22) == 0x0000_0000_8000_0001 && StandardConstant(23) == 0x8000_0000_8000_8008
  {
    hide Out, Register;
    Outputs0();
    Outputs1();
    Outputs2();
    Outputs3();
    Outputs4();
    Outputs5();
  }

  /** The table holds the constants of section 3.2.5 of FIPS 202. */
  lemma {:induction false} ConstantsAreStandard(i: nat)
    requires i < 24
    ensures |ROUND_CONSTANTS| == 24 && ROUND_CONSTANTS[i] == StandardConstant(i)
  {
    hide StandardConstant;
    Constants();
  }
}
