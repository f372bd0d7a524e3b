/** GOST R 34.11-94's 256-bit addition, limb by limb. The source's test for a carry is
    not exact: a limb where both operands are all ones and a carry comes in loses it. */
module GostSum {
  import opened Absorb
  import opened Words

  const W: nat := 0x1_0000_0000

  type Limb = x: int | 0 <= x < 0x1_0000_0000

  function Pow(n: nat): (p: nat)
    ensures p > 0
  {
    if n == 0 then 1 else W * Pow(n - 1)
  }

  /** Least significant limb first. */
  function Number(s: seq<Limb>): nat {
    if s == [] then 0 else Number(s[..|s| - 1]) + s[|s| - 1] * Pow(|s| - 1)
  }

  datatype Sum = Sum(limbs: seq<Limb>, carry: int)

  function Carried(x: Limb, y: Limb, carry: int, exact: bool): int {
    var z := (x + y + carry) % W;
    if exact then (x + y + carry) / W else if z < x || z < y then 1 else 0
  }

  /** The lowest n limbs of the sum, with the exact carry or with the source's test. */
  function Add(a: seq<Limb>, b: seq<Limb>, n: nat, exact: bool): (s: Sum)
    requires n <= |a| && n <= |b|
    ensures |s.limbs| == n && 0 <= s.carry <= 1
  {
    if n == 0 then Sum([], 0)
    else
      var low := Add(a, b, n - 1, exact);
      var x, y := a[n - 1], b[n - 1];
      Sum(low.limbs + [(x + y + low.carry) % W], Carried(x, y, low.carry, exact))
  }

  /** With the exact carry this is addition. */
  lemma {:induction false} ExactAdds(a: seq<Limb>, b: seq<Limb>, n: nat)
    requires n <= |a| && n <= |b|
    ensures var s := Add(a, b, n, true); Number(s.limbs) + s.carry * Pow(n) == Number(a[..n]) + Number(b[..n])
    ensures Number(Add(a, b, n, true).limbs) < Pow(n)
  {
    hide Carried, Pow;
    PowStep(n);
    if n > 0 {
      ExactAdds(a, b, n - 1);
      var low, s := Add(a, b, n - 1, true), Add(a, b, n, true);
      var x, y, z, p := a[n - 1], b[n - 1], s.limbs[n - 1], Pow(n - 1);
      assert s.limbs[..n - 1] == low.limbs;
      assert a[..n][..n - 1] == a[..n - 1] && b[..n][..n - 1] == b[..n - 1];
      ExactColumn(x, y, low.carry);
      Column(x, y, low.carry, z, s.carry, p);
      Top(Number(low.limbs), z, p);
    }
  }

  lemma {:induction false} PowStep(n: nat)
    ensures Pow(0) == 1 && Pow(n + 1) == W * Pow(n) && (n > 0 ==> Pow(n) == W * Pow(n - 1))
  {
  }

  lemma {:induction false} ExactColumn(x: Limb, y: Limb, carry: int)
    ensures x + y + carry == (x + y + carry) % W + Carried(x, y, carry, true) * W
  {
  }

  lemma {:induction false} Column(x: int, y: int, c: int, z: int, c': int, p: int)
    requires x + y + c == z + c' * W
    ensures x * p + y * p + c * p == z * p + c' * (W * p)
  {
    Distribute(x, y, p);
    Distribute(x + y, c, p);
    Distribute(z, c' * W, p);
    Associate(c', W, p);
  }

  lemma {:induction false} Top(low: nat, z: Limb, p: nat)
    requires low < p
    ensures low + z * p < W * p
  {
    Below(z, W, p, low);
  }

  /** Limbs determine the number and the number the limbs. */
  lemma {:induction false} NumberBound(s: seq<Limb>)
    ensures Number(s) < Pow(|s|)
  {
    if s != [] {
      NumberBound(s[..|s| - 1]);
      Top(Number(s[..|s| - 1]), s[|s| - 1], Pow(|s| - 1));
    }
  }

  lemma {:induction false} NumberInjective(s: seq<Limb>, t: seq<Limb>)
    requires |s| == |t| && Number(s) == Number(t)
    ensures s == t
  {
    if s != [] {
      var n := |s| - 1;
      NumberBound(s[..n]);
      NumberBound(t[..n]);
      ModUnique(Number(s), Pow(n), s[n], Number(s[..n]));
      ModUnique(Number(t), Pow(n), t[n], Number(t[..n]));
      NumberInjective(s[..n], t[..n]);
      assert s == s[..n] + [s[n]] && t == t[..n] + [t[n]];
    }
  }

  /** The low n limbs of a number. */
  function LimbsOfNumber(x: nat, n: nat): (s: seq<Limb>)
    ensures |s| == n
  {
    if n == 0 then [] else LimbsOfNumber(x, n - 1) + [x / Pow(n - 1) % W]
  }

  lemma {:induction false} LimbsRoundTrip(x: nat, n: nat)
    ensures Number(LimbsOfNumber(x, n)) == x % Pow(n)
  {
    hide Pow;
    PowStep(n);
    if n > 0 {
      LimbsRoundTrip(x, n - 1);
      var s := LimbsOfNumber(x, n);
      assert s[..n - 1] == LimbsOfNumber(x, n - 1);
      DivDiv(x, Pow(n - 1), W);
    }
  }

  // ---- exactly when the source's carry is right ----

  /** Limb i would carry, and the source's test does not see it: the true sum of the
      lower limbs overflows into two limbs that are all ones. */
  predicate Loses(a: seq<Limb>, b: seq<Limb>, i: nat)
    requires i < |a| && i < |b|
  {
    a[i] == W - 1 && b[i] == W - 1 && Number(a[..i]) + Number(b[..i]) >= Pow(i)
  }

  lemma {:induction false} CarryIsOverflow(a: seq<Limb>, b: seq<Limb>, n: nat)
    requires n <= |a| && n <= |b|
    ensures Add(a, b, n, true).carry == 1 <==> Number(a[..n]) + Number(b[..n]) >= Pow(n)
  {
    ExactAdds(a, b, n);
  }

  lemma {:induction false} OneColumn(x: Limb, y: Limb, carry: int)
    requires 0 <= carry <= 1
    ensures Carried(x, y, carry, false) == Carried(x, y, carry, true) <==> !(x == W - 1 && y == W - 1 && carry == 1)
  {
  }

  /** Up to the first lost carry the source computes the true limbs and carries. */
  lemma {:induction false} AgreesBefore(a: seq<Limb>, b: seq<Limb>, n: nat)
    requires n <= |a| && n <= |b|
    requires forall i | 0 <= i < n :: !Loses(a, b, i)
    ensures Add(a, b, n, false) == Add(a, b, n, true)
  {
    hide Carried, Number, Pow;
    if n > 0 {
      AgreesBefore(a, b, n - 1);
      CarryIsOverflow(a, b, n - 1);
      assert !Loses(a, b, n - 1);
      OneColumn(a[n - 1], b[n - 1], Add(a, b, n - 1, true).carry);
    }
  }

  /** The limb above the first lost carry comes out wrong. */
  lemma {:induction false} WrongAbove(a: seq<Limb>, b: seq<Limb>, i: nat)
    requires i + 1 < |a| && i + 1 < |b|
    requires Loses(a, b, i) && forall j | 0 <= j < i :: !Loses(a, b, j)
    ensures Add(a, b, i + 2, false).limbs[i + 1] != Add(a, b, i + 2, true).limbs[i + 1]
  {
    hide Carried, Number, Pow;
    AgreesBefore(a, b, i);
    CarryIsOverflow(a, b, i);
    var code, exact := Add(a, b, i + 1, false), Add(a, b, i + 1, true);
    LostColumn();
    NextDiffers(a[i + 1], b[i + 1]);
  }

  lemma {:induction false} LostColumn()
    ensures Carried(W - 1, W - 1, 1, false) == 0 && Carried(W - 1, W - 1, 1, true) == 1
  {
  }

  lemma {:induction false} NextDiffers(x: int, y: int)
    ensures (x + y + 0) % W != (x + y + 1) % W
  {
  }

  lemma {:induction false} LimbsStay(a: seq<Limb>, b: seq<Limb>, i: nat, n: nat, exact: bool)
    requires i < n <= |a| && n <= |b|
    ensures Add(a, b, n, exact).limbs[i] == Add(a, b, i + 1, exact).limbs[i]
    decreases n
  {
    if i + 1 < n {
      LimbsStay(a, b, i, n - 1, exact);
    }
  }

  lemma {:induction false} FirstLoss(a: seq<Limb>, b: seq<Limb>, n: nat) returns (i: nat)
    requires n <= |a| && n <= |b| && exists i | 0 <= i < n :: Loses(a, b, i)
    ensures i < n && Loses(a, b, i) && forall j | 0 <= j < i :: !Loses(a, b, j)
  {
    i := 0;
    while !Loses(a, b, i)
      invariant i < n && (forall j | 0 <= j < i :: !Loses(a, b, j))
      decreases n - i
    {
      i := i + 1;
    }
  }

  /** The sum of two n-limb numbers is right, modulo the range, exactly when no limb
      below the top loses its carry. */
  lemma {:induction false} SumIsExactIff(a: seq<Limb>, b: seq<Limb>, n: nat)
    requires |a| == |b| == n > 0
    ensures Number(Add(a, b, n, false).limbs) == (Number(a) + Number(b)) % Pow(n)
      <==> forall i | 0 <= i < n - 1 :: !Loses(a, b, i)
  {
    hide Loses, Number, Pow;
    var code, exact := Add(a, b, n, false), Add(a, b, n, true);
    ExactAdds(a, b, n);
    assert a[..n] == a && b[..n] == b;
    ModUnique(Number(a) + Number(b), Pow(n), exact.carry, Number(exact.limbs));
    if forall i | 0 <= i < n - 1 :: !Loses(a, b, i) {
      AgreesBefore(a, b, n - 1);
      assert code.limbs == exact.limbs;
    } else {
      var i := FirstLoss(a, b, n - 1);
      WrongAbove(a, b, i);
      LimbsStay(a, b, i + 1, n, false);
      LimbsStay(a, b, i + 1, n, true);
      if Number(code.limbs) == Number(exact.limbs) {
        NumberInjective(code.limbs, exact.limbs);
        assert false;
      }
    }
  }

  // ---- how much is lost ----

  /** Limb i drops a carry: both operands are all ones and the source's carry comes in. */
  predicate Drops(a: seq<Limb>, b: seq<Limb>, i: nat)
    requires i < |a| && i < |b|
  {
    a[i] == W - 1 && b[i] == W - 1 && Add(a, b, i, false).carry == 1
  }

  /** The sum of the carries that the lowest n limbs drop. */
  ghost function Lost(a: seq<Limb>, b: seq<Limb>, n: nat): nat
    requires n <= |a| && n <= |b|
  {
    if n == 0 then 0 else Lost(a, b, n - 1) + if Drops(a, b, n - 1) then Pow(n) else 0
  }

  lemma {:induction false} CodeColumn(x: Limb, y: Limb, carry: int)
    requires 0 <= carry <= 1
    ensures var dropped := if x == W - 1 && y == W - 1 && carry == 1 then 1 else 0;
      x + y + carry == (x + y + carry) % W + (Carried(x, y, carry, false) + dropped) * W
  {
    ExactColumn(x, y, carry);
    OneColumn(x, y, carry);
    LostColumn();
  }

  /** The source's sum and carry, with what was dropped put back, are the true sum. */
  lemma {:induction false} CodeAdds(a: seq<Limb>, b: seq<Limb>, n: nat)
    requires n <= |a| && n <= |b|
    ensures var s := Add(a, b, n, false);
      Number(s.limbs) + s.carry * Pow(n) + Lost(a, b, n) == Number(a[..n]) + Number(b[..n])
  {
    hide Carried, Pow;
    PowStep(n);
    if n == 0 {
      assert a[..0] == [] && b[..0] == [];
    } else {
      CodeAdds(a, b, n - 1);
      var low, s := Add(a, b, n - 1, false), Add(a, b, n, false);
      var x, y, z, p := a[n - 1], b[n - 1], s.limbs[n - 1], Pow(n - 1);
      var dropped := if Drops(a, b, n - 1) then 1 else 0;
      assert s.limbs[..n - 1] == low.limbs;
      assert a[..n][..n - 1] == a[..n - 1] && b[..n][..n - 1] == b[..n - 1];
      CodeColumn(x, y, low.carry);
      Column(x, y, low.carry, z, s.carry + dropped, p);
      Distribute(s.carry, dropped, W * p);
    }
  }

  lemma {:induction false} LostBound(a: seq<Limb>, b: seq<Limb>, n: nat)
    requires n <= |a| && n <= |b|
    ensures Lost(a, b, n) <= 2 * Pow(n)
  {
    if n == 0 {
    } else {
      LostBound(a, b, n - 1);
      PowStep(n);
    }
  }

  /** What the sum of two n-limb numbers is, whatever was dropped. */
  lemma {:induction false} SumUpToLoss(a: seq<Limb>, b: seq<Limb>, n: nat)
    requires |a| == |b| == n > 0
    ensures (Number(Add(a, b, n, false).limbs) + Lost(a, b, n - 1)) % Pow(n) == (Number(a) + Number(b)) % Pow(n)
  {
    hide Number, Pow;
    var s, lost := Add(a, b, n, false), Lost(a, b, n - 1);
    var over := s.carry + if Drops(a, b, n - 1) then 1 else 0;
    CodeAdds(a, b, n);
    assert a[..n] == a && b[..n] == b;
    Distribute(s.carry, over - s.carry, Pow(n));
    assert Number(s.limbs) + lost + over * Pow(n) == Number(a) + Number(b);
    AddMultiple(Number(s.limbs) + lost, over, Pow(n));
  }

  lemma {:induction false} AddMultiple(x: nat, q: nat, m: nat)
    requires m > 0
    ensures (x + q * m) % m == x % m
  {
    assert x == x / m * m + x % m;
    Distribute(x / m, q, m);
    ModUnique(x + q * m, m, x / m + q, x % m);
  }

  /** Nothing is lost below the top exactly when no limb below the top loses its carry. */
  lemma {:induction false} NothingLostIff(a: seq<Limb>, b: seq<Limb>, n: nat)
    requires |a| == |b| == n > 0
    ensures Lost(a, b, n - 1) == 0 <==> forall i | 0 <= i < n - 1 :: !Loses(a, b, i)
  {
    hide Number, Pow, Loses, Add, Drops;
    var x, lost := Number(Add(a, b, n, false).limbs), Lost(a, b, n - 1);
    SumIsExactIff(a, b, n);
    SumUpToLoss(a, b, n);
    NumberBound(Add(a, b, n, false).limbs);
    LostBound(a, b, n - 1);
    PowStep(n);
    SmallMod(x, Pow(n));
    if lost > 0 {
      Shifted(x, lost, Pow(n));
    }
  }

  /** Adding something between 0 and m changes the remainder. */
  lemma {:induction false} Shifted(x: nat, d: nat, m: nat)
    requires x < m && 0 < d < m
    ensures (x + d) % m != x
  {
    if x + d < m {
      SmallMod(x + d, m);
    } else {
      ModUnique(x + d, m, 1, x + d - m);
    }
  }

  /** The source's loop, in place. */
  method Sum256(a: array<Limb>, b: seq<Limb>)
    requires a.Length == |b| == 8
    modifies a
    ensures a[..] == Add(old(a[..]), b, 8, false).limbs
  {
    ghost var before := a[..];
    var carry := false;
    for i := 0 to 8
      invariant a[..i] == Add(before, b, i, false).limbs && a[i..] == before[i..]
      invariant carry == (Add(before, b, i, false).carry == 1)
    {
      hide *;
      var x := a[i];
      assert x == a[i..][0] == before[i];
      AddStep(before, b, i);
      var z: Limb := (x + b[i] + if carry then 1 else 0) % W;
      a[i] := z;
      carry := z < x || z < b[i];
      assert a[..i + 1] == a[..i] + [z];
      assert a[i + 1..] == before[i..][1..];
    }
    assert a[..8] == a[..];
  }

  lemma {:induction false} AddStep(a: seq<Limb>, b: seq<Limb>, i: nat)
    requires i < |a| && i < |b|
    ensures var low := Add(a, b, i, false);
      var z := (a[i] + b[i] + low.carry) % W;
      Add(a, b, i + 1, false) == Sum(low.limbs + [z], if z < a[i] || z < b[i] then 1 else 0)
  {
  }

  function Ones(): seq<Limb> {
    seq(8, _ => W - 1)
  }

  /** A sum that comes out wrong: all ones added to all ones. */
  lemma {:induction false} SumOfOnesIsWrong()
    ensures Number(Add(Ones(), Ones(), 8, false).limbs) != (Number(Ones()) + Number(Ones())) % Pow(8)
  {
    OnesLose();
    SumIsExactIff(Ones(), Ones(), 8);
  }

  lemma {:induction false} OnesLose()
    ensures Loses(Ones(), Ones(), 1)
  {
    assert Ones()[..1][..0] == [] && Pow(0) == 1 && Pow(1) == W;
    assert Number(Ones()[..1]) == W - 1;
  }
}
