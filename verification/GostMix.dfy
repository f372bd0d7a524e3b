/** The mixing transformation of GOST R 34.11-94: the source's unrolled formulas against
    the shift register they unroll. The register holds sixteen halfwords; a step shifts
    it by one and feeds back the sum of six of them. */
module GostMix {

  type Word = bv32
  type Half = bv16

  // ---- the source's formulas ----

  /** What the formulas take of a word: all of it, shifted, or one half in place. */
  datatype Part = Whole | Up | Down | Low | High

  function Take(part: Part, x: Word): Word {
    match part
    case Whole => x
    case Up => x << 16
    case Down => x >> 16
    case Low => x & 0x0000FFFF
    case High => x & 0xFFFF0000
  }

  function Plus1(x: Word, a: Word): Word {
    x ^ a
  }

  function Plus2(x: Word, a: Word, b: Word): Word {
    Plus1(Plus1(x, a), b)
  }

  function Plus4(x: Word, a: Word, b: Word, c: Word, d: Word): Word {
    Plus2(Plus2(x, a, b), c, d)
  }

  /** Twelve register steps on s, added to the message. */
  function Stir12(data: seq<Word>, s: seq<Word>): (u: seq<Word>)
    requires |data| == |s| == 8
    ensures |u| == 8
  {
    [
      Plus1(data[0],
        Take(Whole, s[6])),
      Plus1(data[1],
        Take(Whole, s[7])),
      Plus2(Plus4(Plus4(data[2],
        Take(Low, s[0]), Take(Down, s[0]), Take(Up, s[0]), Take(Low, s[1])),
        Take(Down, s[1]), Take(Up, s[2]), Take(High, s[7]), Take(Up, s[6])),
        Take(Down, s[7]), Take(Whole, s[6])),
      Plus2(Plus4(Plus4(Plus4(data[3],
        Take(Low, s[0]), Take(Up, s[0]), Take(Up, s[2]), Take(Low, s[1])),
        Take(Up, s[1]), Take(Down, s[1]), Take(Low, s[7]), Take(Down, s[2])),
        Take(Up, s[3]), Take(Up, s[6]), Take(Down, s[6]), Take(Up, s[7])),
        Take(Down, s[7]), Take(Whole, s[6])),
      Plus1(Plus2(Plus4(Plus4(Plus4(data[4],
        Take(High, s[0]), Take(Up, s[0]), Take(Down, s[0]), Take(High, s[1])),
        Take(Down, s[1]), Take(Up, s[2]), Take(Low, s[7]), Take(Up, s[3])),
        Take(Down, s[3]), Take(Up, s[4]), Take(Up, s[6]), Take(Down, s[6])),
        Take(Down, s[2]), Take(Up, s[7])),
        Take(Down, s[7])),
      Plus4(Plus4(Plus4(Plus4(data[5],
        Take(High, s[0]), Take(Down, s[0]), Take(Up, s[0]), Take(Low, s[1])),
        Take(Down, s[7]), Take(Down, s[2]), Take(High, s[7]), Take(Down, s[3])),
        Take(Up, s[4]), Take(Down, s[4]), Take(Up, s[5]), Take(Up, s[6])),
        Take(Down, s[6]), Take(Up, s[3]), Take(Up, s[7]), Take(Whole, s[2])),
      Plus1(Plus4(Plus4(Plus4(data[6],
        Take(Down, s[4]), Take(Down, s[1]), Take(Up, s[2]), Take(Up, s[7])),
        Take(Down, s[3]), Take(Up, s[4]), Take(Up, s[5]), Take(Down, s[5])),
        Take(Up, s[6]), Take(Down, s[6]), Take(Whole, s[6]), Take(Whole, s[0])),
        Take(Whole, s[3])),
      Plus2(Plus4(Plus4(Plus4(data[7],
        Take(High, s[0]), Take(Up, s[0]), Take(Up, s[1]), Take(Low, s[1])),
        Take(Down, s[2]), Take(Up, s[3]), Take(Low, s[7]), Take(Down, s[4])),
        Take(Up, s[5]), Take(Down, s[5]), Take(Down, s[6]), Take(Up, s[7])),
        Take(Down, s[7]), Take(Whole, s[4]))
    ]
  }

  /** One register step on u, added to the previous hash. */
  function Stir1(hash: seq<Word>, u: seq<Word>): (v: seq<Word>)
    requires |hash| == |u| == 8
    ensures |v| == 8
  {
    [
      Plus2(hash[0],
        Take(Up, u[1]), Take(Down, u[0])),
      Plus2(hash[1],
        Take(Up, u[2]), Take(Down, u[1])),
      Plus2(hash[2],
        Take(Up, u[3]), Take(Down, u[2])),
      Plus2(hash[3],
        Take(Up, u[4]), Take(Down, u[3])),
      Plus2(hash[4],
        Take(Up, u[5]), Take(Down, u[4])),
      Plus2(hash[5],
        Take(Up, u[6]), Take(Down, u[5])),
      Plus2(hash[6],
        Take(Up, u[7]), Take(Down, u[6])),
      Plus1(Plus2(Plus4(hash[7],
        Take(Down, u[7]), Take(Up, u[0]), Take(High, u[1]), Take(Up, u[1])),
        Take(High, u[7]), Take(Up, u[6])),
        Take(High, u[0]))
    ]
  }

  /** Sixty-one register steps on v. */
  function Stir61(v: seq<Word>): (hash: seq<Word>)
    requires |v| == 8
    ensures |hash| == 8
  {
    [
      Plus2(Plus4(Plus4(Plus4(0,
        Take(High, v[0]), Take(Up, v[0]), Take(Down, v[0]), Take(High, v[1])),
        Take(Down, v[1]), Take(Up, v[2]), Take(Low, v[7]), Take(Down, v[3])),
        Take(Up, v[4]), Take(Down, v[5]), Take(Down, v[6]), Take(Up, v[7])),
        Take(Down, v[7]), Take(Whole, v[5])),
      Plus1(Plus4(Plus4(Plus4(0,
        Take(High, v[0]), Take(Up, v[0]), Take(Down, v[0]), Take(Low, v[1])),
        Take(Down, v[2]), Take(Up, v[3]), Take(High, v[7]), Take(Down, v[4])),
        Take(Up, v[5]), Take(Up, v[6]), Take(Down, v[7]), Take(Whole, v[6])),
        Take(Whole, v[2])),
      Plus1(Plus2(Plus4(Plus4(Plus4(0,
        Take(Low, v[0]), Take(Up, v[0]), Take(Up, v[1]), Take(Low, v[7])),
        Take(Down, v[1]), Take(Up, v[2]), Take(High, v[1]), Take(Down, v[3])),
        Take(Up, v[4]), Take(Down, v[5]), Take(Down, v[6]), Take(Up, v[7])),
        Take(Down, v[7]), Take(Whole, v[3])),
        Take(Whole, v[6])),
      Plus1(Plus2(Plus4(Plus4(Plus4(0,
        Take(High, v[0]), Take(Up, v[0]), Take(Down, v[0]), Take(High, v[1])),
        Take(Down, v[1]), Take(Up, v[2]), Take(Low, v[7]), Take(Down, v[2])),
        Take(Up, v[3]), Take(Down, v[4]), Take(Up, v[5]), Take(Up, v[6])),
        Take(Down, v[7]), Take(Whole, v[2])),
        Take(Whole, v[4])),
      Plus2(Plus4(Plus4(Plus4(0,
        Take(Down, v[0]), Take(Up, v[1]), Take(Down, v[2]), Take(Up, v[3])),
        Take(Down, v[3]), Take(Up, v[4]), Take(Down, v[5]), Take(Up, v[6])),
        Take(Down, v[6]), Take(Up, v[7]), Take(Whole, v[1]), Take(Whole, v[2])),
        Take(Whole, v[3]), Take(Whole, v[5])),
      Plus1(Plus2(Plus4(Plus4(Plus4(Plus4(0,
        Take(High, v[0]), Take(Up, v[0]), Take(Up, v[1]), Take(High, v[1])),
        Take(Down, v[1]), Take(Up, v[2]), Take(High, v[7]), Take(Down, v[3])),
        Take(Up, v[4]), Take(Down, v[4]), Take(Up, v[5]), Take(Up, v[6])),
        Take(Down, v[6]), Take(Up, v[7]), Take(Down, v[7]), Take(Whole, v[2])),
        Take(Whole, v[3]), Take(Whole, v[4])),
        Take(Whole, v[6])),
      Plus1(Plus2(Plus4(Plus4(Plus4(0,
        Take(Down, v[2]), Take(Up, v[3]), Take(Down, v[4]), Take(Up, v[5])),
        Take(Down, v[5]), Take(Up, v[6]), Take(Down, v[6]), Take(Up, v[7])),
        Take(Whole, v[7]), Take(Whole, v[0]), Take(Whole, v[2]), Take(Whole, v[3])),
        Take(Whole, v[4]), Take(Whole, v[5])),
        Take(Whole, v[6])),
      Plus1(Plus2(Plus4(Plus4(Plus4(0,
        Take(Down, v[0]), Take(Up, v[1]), Take(Down, v[1]), Take(Up, v[2])),
        Take(Down, v[3]), Take(Up, v[4]), Take(Down, v[5]), Take(Up, v[6])),
        Take(Down, v[6]), Take(Up, v[7]), Take(Whole, v[7]), Take(Whole, v[0])),
        Take(Whole, v[3]), Take(Whole, v[4])),
        Take(Whole, v[5]))
    ]
  }

  // ---- the register ----

  function Lo(x: Word): Half {
    (x & 0xFFFF) as Half
  }

  function Hi(x: Word): Half {
    (x >> 16) as Half
  }

  type Register = s: seq<Half> | |s| == 16 witness seq(16, _ => 0)

  /** Words as halfwords, the low half first. */
  function Halves(w: seq<Word>): Register
    requires |w| == 8
  {
    seq(16, i requires 0 <= i < 16 => if i % 2 == 0 then Lo(w[i / 2]) else Hi(w[i / 2]))
  }

  function Xor(x: Half, y: Half): Half {
    x ^ y
  }

  function Six(a: Half, b: Half, c: Half, d: Half, e: Half, f: Half): Half {
    Xor(Xor(Xor(Xor(Xor(a, b), c), d), e), f)
  }

  /** One step of the register. */
  function Psi(s: Register): Register {
    s[1..] + [Six(s[0], s[1], s[2], s[3], s[12], s[15])]
  }

  function PsiN(s: Register, n: nat): Register {
    if n == 0 then s else Psi(PsiN(s, n - 1))
  }

  function Plus(a: Register, b: Register): Register {
    seq(16, i requires 0 <= i < 16 => Xor(a[i], b[i]))
  }

  lemma {:induction false} PsiAt(s: Register, i: nat)
    requires i < 16
    ensures Psi(s)[i] == if i < 15 then s[i + 1] else Six(s[0], s[1], s[2], s[3], s[12], s[15])
  {
  }

  // ---- linear forms over the start of the register ----

  function Unit(k: nat): Half {
    if k == 0 then 0x0001 else if k == 1 then 0x0002 else if k == 2 then 0x0004 else if k == 3 then 0x0008
    else if k == 4 then 0x0010 else if k == 5 then 0x0020 else if k == 6 then 0x0040 else if k == 7 then 0x0080
    else if k == 8 then 0x0100 else if k == 9 then 0x0200 else if k == 10 then 0x0400 else if k == 11 then 0x0800
    else if k == 12 then 0x1000 else if k == 13 then 0x2000 else if k == 14 then 0x4000 else if k == 15 then 0x8000
    else 0
  }

  /** x, if bit k of the mask is set. */
  function Pick(mask: Half, k: nat, x: Half): Half {
    if mask & Unit(k) != 0 then x else 0
  }

  /** The sum of those of the first n halfwords that the mask selects. */
  function Eval(mask: Half, s: Register, n: nat): Half
    requires n <= 16
  {
    if n == 0 then 0 else Xor(Eval(mask, s, n - 1), Pick(mask, n - 1, s[n - 1]))
  }

  lemma {:induction false} PickXor(a: Half, b: Half, k: nat, x: Half)
    requires k < 16
    ensures Pick(Xor(a, b), k, x) == Xor(Pick(a, k, x), Pick(b, k, x))
  {
    SelectXor(a, b, k, x);
  }

  lemma {:induction false} SelectXor(a: Half, b: Half, k: nat, x: Half)
    requires k < 16
    ensures (if (a ^ b) & Unit(k) != 0 then x else 0)
         == (if a & Unit(k) != 0 then x else 0) ^ (if b & Unit(k) != 0 then x else 0)
  {
  }

  lemma {:induction false} Pairs(p: Half, q: Half, x: Half, y: Half)
    ensures Xor(Xor(p, q), Xor(x, y)) == Xor(Xor(p, x), Xor(q, y))
  {
    hide Xor;
    XorAssoc(p, q, Xor(x, y));
    XorAssoc(q, x, y);
    XorComm(q, x);
    XorAssoc(x, q, y);
    XorAssoc(p, x, Xor(q, y));
  }

  lemma {:induction false} XorAssoc(x: Half, y: Half, z: Half)
    ensures Xor(Xor(x, y), z) == Xor(x, Xor(y, z))
  {
  }

  lemma {:induction false} XorComm(x: Half, y: Half)
    ensures Xor(x, y) == Xor(y, x)
  {
  }

  lemma {:induction false} XorZero(x: Half)
    ensures Xor(x, 0) == x && Xor(0, x) == x
  {
  }

  /** Evaluation is linear in the mask. */
  lemma {:induction false} EvalXor(a: Half, b: Half, s: Register, n: nat)
    requires n <= 16
    ensures Eval(Xor(a, b), s, n) == Xor(Eval(a, s, n), Eval(b, s, n))
  {
    hide Unit, Pick, Xor;
    if n > 0 {
      var k := n - 1;
      EvalXor(a, b, s, k);
      PickXor(a, b, k, s[k]);
      Pairs(Eval(a, s, k), Eval(b, s, k), Pick(a, k, s[k]), Pick(b, k, s[k]));
    } else {
      XorZero(0);
    }
  }

  lemma {:induction false} PickUnit(i: nat, k: nat, x: Half)
    requires i < 16 && k < 16
    ensures Pick(Unit(i), k, x) == if i == k then x else 0
  {
  }

  lemma {:induction false} EvalUnit(i: nat, s: Register, n: nat)
    requires i < 16 && n <= 16
    ensures Eval(Unit(i), s, n) == if i < n then s[i] else 0
  {
    hide Unit, Pick, Xor;
    if n > 0 {
      EvalUnit(i, s, n - 1);
      PickUnit(i, n - 1, s[n - 1]);
      XorZero(s[n - 1]);
      XorZero(Eval(Unit(i), s, n - 1));
    }
  }

  lemma {:induction false} PickNone(k: nat, x: Half)
    ensures Pick(0, k, x) == 0
  {
  }

  lemma {:induction false} EvalZero(s: Register, n: nat)
    requires n <= 16
    ensures Eval(0, s, n) == 0
  {
    hide Unit, Pick, Xor;
    if n > 0 {
      EvalZero(s, n - 1);
      PickNone(n - 1, s[n - 1]);
      XorZero(0);
    }
  }

  lemma {:induction false} EvalSix(a: Half, b: Half, c: Half, d: Half, e: Half, f: Half, s: Register)
    ensures Eval(Six(a, b, c, d, e, f), s, 16)
         == Six(Eval(a, s, 16), Eval(b, s, 16), Eval(c, s, 16), Eval(d, s, 16), Eval(e, s, 16), Eval(f, s, 16))
  {
    hide Eval, Xor;
    EvalXor(a, b, s, 16);
    EvalXor(Xor(a, b), c, s, 16);
    EvalXor(Xor(Xor(a, b), c), d, s, 16);
    EvalXor(Xor(Xor(Xor(a, b), c), d), e, s, 16);
    EvalXor(Xor(Xor(Xor(Xor(a, b), c), d), e), f, s, 16);
  }

  // ---- a register step multiplies masks by x ----

  /** Multiplication by x of a polynomial over two elements, modulo x^16 = x^15 + x^12 + x^3 + x^2 + x + 1. */
  function Times(m: Half): Half {
    if m & 0x8000 != 0 then Xor(m << 1, 0x900F) else m << 1
  }

  function TimesN(m: Half, n: nat): Half {
    if n == 0 then m else Times(TimesN(m, n - 1))
  }

  lemma {:induction false} PickShifted(m: Half, k: nat, x: Half)
    requires k < 15
    ensures Pick(m << 1, k + 1, x) == Pick(m, k, x) && Pick(m << 1, 0, x) == 0
  {
  }

  /** Shifting the mask is shifting the register. */
  lemma {:induction false} EvalShifted(m: Half, s: Register, n: nat)
    requires n < 16
    ensures Eval(m << 1, s, n + 1) == Eval(m, Psi(s), n)
  {
    hide Pick, Xor, Six, Psi;
    if n == 0 {
      PickShifted(m, 0, s[0]);
      XorZero(0);
      assert Eval(m << 1, s, 1) == Xor(Eval(m << 1, s, 0), Pick(m << 1, 0, s[0]));
    } else {
      EvalShifted(m, s, n - 1);
      PsiAt(s, n - 1);
      PickShifted(m, n - 1, s[n]);
    }
  }

  lemma {:induction false} FeedbackMask(s: Register)
    ensures Eval(0x900F, s, 16) == Six(s[0], s[1], s[2], s[3], s[12], s[15])
  {
    hide Eval, Xor;
    EvalSix(Unit(0), Unit(1), Unit(2), Unit(3), Unit(12), Unit(15), s);
    FeedbackUnits();
    EvalUnit(0, s, 16);
    EvalUnit(1, s, 16);
    EvalUnit(2, s, 16);
    EvalUnit(3, s, 16);
    EvalUnit(12, s, 16);
    EvalUnit(15, s, 16);
  }

  lemma {:induction false} FeedbackUnits()
    ensures Six(Unit(0), Unit(1), Unit(2), Unit(3), Unit(12), Unit(15)) == 0x900F
  {
  }

  lemma {:induction false} TopPick(m: Half, x: Half)
    ensures Pick(m, 15, x) == if m & 0x8000 != 0 then x else 0
  {
  }

  /** Evaluating after a register step is evaluating the multiplied mask before it. */
  lemma {:induction false} StepIsTimes(m: Half, s: Register)
    ensures Eval(m, Psi(s), 16) == Eval(Times(m), s, 16)
  {
    hide Xor, Six, Psi, Pick;
    EvalShifted(m, s, 15);
    PsiAt(s, 15);
    TopPick(m, Psi(s)[15]);
    FeedbackMask(s);
    EvalXor(m << 1, 0x900F, s, 16);
    XorZero(Eval(m << 1, s, 16));
  }

  lemma {:induction false} StepsAreTimes(m: Half, s: Register, n: nat)
    ensures Eval(m, PsiN(s, n), 16) == Eval(TimesN(m, n), s, 16)
    decreases n
  {
    hide Eval, Psi, Times;
    if n > 0 {
      StepIsTimes(m, PsiN(s, n - 1));
      StepsAreTimes(Times(m), s, n - 1);
      TimesFirst(m, n - 1);
    }
  }

  lemma {:induction false} TimesFirst(m: Half, n: nat)
    ensures TimesN(Times(m), n) == Times(TimesN(m, n))
  {
    hide Times;
    if n > 0 {
      TimesFirst(m, n - 1);
    }
  }

  /** The i-th halfword after n steps, as a linear form of the start. */
  lemma {:induction false} AfterSteps(s: Register, n: nat, i: nat)
    requires i < 16
    ensures PsiN(s, n)[i] == Eval(TimesN(0x0001, n + i), s, 16)
  {
    hide Eval, Psi, Times;
    EvalUnit(i, PsiN(s, n), 16);
    StepsAreTimes(Unit(i), s, n);
    UnitIsPower(i);
    TimesAdd(0x0001, i, n);
  }

  lemma {:induction false} TimesAdd(m: Half, i: nat, n: nat)
    ensures TimesN(TimesN(m, i), n) == TimesN(m, n + i)
  {
    hide Times;
    if n > 0 {
      TimesAdd(m, i, n - 1);
    }
  }

  lemma {:induction false} UnitStep(i: nat)
    requires 0 < i < 16
    ensures Unit(i) == Times(Unit(i - 1))
  {
  }

  lemma {:induction false} UnitIsPower(i: nat)
    requires i < 16
    ensures Unit(i) == TimesN(0x0001, i)
  {
    hide Times, Unit;
    if i > 0 {
      UnitIsPower(i - 1);
      UnitStep(i);
    } else {
      UnitZero();
    }
  }

  lemma {:induction false} UnitZero()
    ensures Unit(0) == 0x0001
  {
  }

  function Power(n: nat): Half {
    TimesN(0x0001, n)
  }

  lemma {:induction false} Powers0()
    ensures Power(0) == 0x0001 && Power(1) == 0x0002 && Power(2) == 0x0004 && Power(3) == 0x0008
    ensures Power(4) == 0x0010 && Power(5) == 0x0020 && Power(6) == 0x0040 && Power(7) == 0x0080
    ensures Power(8) == 0x0100 && Power(9) == 0x0200 && Power(10) == 0x0400 && Power(11) == 0x0800
    ensures Power(12) == 0x1000 && Power(13) == 0x2000 && Power(14) == 0x4000 && Power(15) == 0x8000
  {
  }

  lemma {:induction false} Powers16()
    ensures Power(16) == 0x900F && Power(17) == 0xB011 && Power(18) == 0xF02D && Power(19) == 0x7055
    ensures Power(20) == 0xE0AA && Power(21) == 0x515B && Power(22) == 0xA2B6 && Power(23) == 0xD563
    ensures Power(24) == 0x3AC9 && Power(25) == 0x7592 && Power(26) == 0xEB24 && Power(27) == 0x4647
    ensures Power(28) == 0x8C8E && Power(29) == 0x8913 && Power(30) == 0x8229 && Power(31) == 0x945D
  {
    Powers0();
  }

  lemma {:induction false} Powers32()
    ensures Power(32) == 0xB8B5 && Power(33) == 0xE165 && Power(34) == 0x52C5 && Power(35) == 0xA58A
    ensures Power(36) == 0xDB1B && Power(37) == 0x2639 && Power(38) == 0x4C72 && Power(39) == 0x98E4
    ensures Power(40) == 0xA1C7 && Power(41) == 0xD381 && Power(42) == 0x370D && Power(43) == 0x6E1A
    ensures Power(44) == 0xDC34 && Power(45) == 0x2867 && Power(46) == 0x50CE && Power(47) == 0xA19C
  {
    Powers16();
  }

  lemma {:induction false} Powers48()
    ensures Power(48) == 0xD337 && Power(49) == 0x3661 && Power(50) == 0x6CC2 && Power(51) == 0xD984
    ensures Power(52) == 0x2307 && Power(53) == 0x460E && Power(54) == 0x8C1C && Power(55) == 0x8837
    ensures Power(56) == 0x8061 && Power(57) == 0x90CD && Power(58) == 0xB195 && Power(59) == 0xF325
    ensures Power(60) == 0x7645 && Power(61) == 0xEC8A && Power(62) == 0x491B && Power(63) == 0x9236
  {
    Powers32();
  }

  lemma {:induction false} Powers64()
    ensures Power(64) == 0xB463 && Power(65) == 0xF8C9 && Power(66) == 0x619D && Power(67) == 0xC33A
    ensures Power(68) == 0x167B && Power(69) == 0x2CF6 && Power(70) == 0x59EC && Power(71) == 0xB3D8
    ensures Power(72) == 0xF7BF && Power(73) == 0x7F71 && Power(74) == 0xFEE2 && Power(75) == 0x6DCB
    ensures Power(76) == 0xDB96
  {
    Powers48();
  }

  // ---- the formulas as linear forms ----

  /** Which halfword the part of word k puts in the low half, and in the high half. */
  function LoMask(k: nat, part: Part): Half {
    if part.Whole? || part.Low? then Unit(2 * k) else if part.Down? then Unit(2 * k + 1) else 0
  }

  function HiMask(k: nat, part: Part): Half {
    if part.Whole? || part.High? then Unit(2 * k + 1) else if part.Up? then Unit(2 * k) else 0
  }

  lemma {:induction false} HalvesOfXor(x: Word, y: Word)
    ensures Lo(Plus1(x, y)) == Xor(Lo(x), Lo(y)) && Hi(Plus1(x, y)) == Xor(Hi(x), Hi(y))
  {
  }

  lemma {:induction false} HalvesOfPart(part: Part, x: Word)
    ensures Lo(Take(part, x)) == if part.Whole? || part.Low? then Lo(x) else if part.Down? then Hi(x) else 0
    ensures Hi(Take(part, x)) == if part.Whole? || part.High? then Hi(x) else if part.Up? then Lo(x) else 0
  {
  }

  lemma {:induction false} HalvesAt(v: seq<Word>, k: nat)
    requires |v| == 8 && k < 8
    ensures Halves(v)[2 * k] == Lo(v[k]) && Halves(v)[2 * k + 1] == Hi(v[k])
  {
    hide Lo, Hi;
  }

  lemma {:induction false} OneTerm(v: seq<Word>, k: nat, part: Part)
    requires |v| == 8 && k < 8
    ensures Eval(LoMask(k, part), Halves(v), 16) == Lo(Take(part, v[k]))
    ensures Eval(HiMask(k, part), Halves(v), 16) == Hi(Take(part, v[k]))
  {
    hide Eval, Take, Lo, Hi, Unit, Halves;
    EvalZero(Halves(v), 16);
    HalvesOfPart(part, v[k]);
    HalvesAt(v, k);
    EvalUnit(2 * k, Halves(v), 16);
    EvalUnit(2 * k + 1, Halves(v), 16);
  }

  /** The halves of x are those of the base plus these linear forms of v. */
  ghost predicate Is(x: Word, base: Word, lo: Half, hi: Half, v: seq<Word>)
    requires |v| == 8
  {
    && Lo(x) == Xor(Lo(base), Eval(lo, Halves(v), 16))
    && Hi(x) == Xor(Hi(base), Eval(hi, Halves(v), 16))
  }

  lemma {:induction false} IsBase(base: Word, v: seq<Word>)
    requires |v| == 8
    ensures Is(base, base, 0, 0, v)
  {
    hide Eval, Xor, Lo, Hi, Halves;
    EvalZero(Halves(v), 16);
    XorZero(Lo(base));
    XorZero(Hi(base));
  }

  lemma {:induction false} Add1(x: Word, base: Word, lo: Half, hi: Half, v: seq<Word>, i: nat, p: Part)
    returns (x': Word, lo': Half, hi': Half)
    requires |v| == 8 && i < 8 && Is(x, base, lo, hi, v)
    ensures x' == Plus1(x, Take(p, v[i])) && lo' == Xor(lo, LoMask(i, p)) && hi' == Xor(hi, HiMask(i, p))
    ensures Is(x', base, lo', hi', v)
  {
    hide Eval, Xor, Plus1, Take, Lo, Hi, Halves, LoMask, HiMask;
    var h, y := Halves(v), Take(p, v[i]);
    x', lo', hi' := Plus1(x, y), Xor(lo, LoMask(i, p)), Xor(hi, HiMask(i, p));
    HalvesOfXor(x, y);
    OneTerm(v, i, p);
    EvalXor(lo, LoMask(i, p), h, 16);
    EvalXor(hi, HiMask(i, p), h, 16);
    XorAssoc(Lo(base), Eval(lo, h, 16), Lo(y));
    XorAssoc(Hi(base), Eval(hi, h, 16), Hi(y));
  }

  lemma {:induction false} Add2(x: Word, base: Word, lo: Half, hi: Half, v: seq<Word>, i: nat, p: Part, j: nat, q: Part)
    returns (x': Word, lo': Half, hi': Half)
    requires |v| == 8 && i < 8 && j < 8 && Is(x, base, lo, hi, v)
    ensures x' == Plus2(x, Take(p, v[i]), Take(q, v[j]))
    ensures lo' == Xor(Xor(lo, LoMask(i, p)), LoMask(j, q)) && hi' == Xor(Xor(hi, HiMask(i, p)), HiMask(j, q))
    ensures Is(x', base, lo', hi', v)
  {
    hide Is, Xor, Plus1, Take, LoMask, HiMask;
    x', lo', hi' := Add1(x, base, lo, hi, v, i, p);
    x', lo', hi' := Add1(x', base, lo', hi', v, j, q);
  }

  lemma {:induction false} Add4(x: Word, base: Word, lo: Half, hi: Half, v: seq<Word>,
                                i: nat, p: Part, j: nat, q: Part, k: nat, r: Part, l: nat, t: Part)
    returns (x': Word, lo': Half, hi': Half)
    requires |v| == 8 && i < 8 && j < 8 && k < 8 && l < 8 && Is(x, base, lo, hi, v)
    ensures x' == Plus4(x, Take(p, v[i]), Take(q, v[j]), Take(r, v[k]), Take(t, v[l]))
    ensures lo' == Xor(Xor(Xor(Xor(lo, LoMask(i, p)), LoMask(j, q)), LoMask(k, r)), LoMask(l, t))
    ensures hi' == Xor(Xor(Xor(Xor(hi, HiMask(i, p)), HiMask(j, q)), HiMask(k, r)), HiMask(l, t))
    ensures Is(x', base, lo', hi', v)
  {
    hide Is, Xor, Plus2, Take, LoMask, HiMask;
    x', lo', hi' := Add2(x, base, lo, hi, v, i, p, j, q);
    x', lo', hi' := Add2(x', base, lo', hi', v, k, r, l, t);
  }

  lemma {:induction false} Twelve0(data: seq<Word>, s: seq<Word>)
    requires |data| == |s| == 8
    ensures Is(Stir12(data, s)[0], data[0], 0x1000, 0x2000, s)
  {
    hide Is, Plus1, Plus2, Plus4, Take;
    IsBase(data[0], s);
    var x, lo, hi := Add1(data[0], data[0], 0, 0, s, 6, Whole);
  }

  lemma {:induction false} Twelve1(data: seq<Word>, s: seq<Word>)
    requires |data| == |s| == 8
    ensures Is(Stir12(data, s)[1], data[1], 0x4000, 0x8000, s)
  {
    hide Is, Plus1, Plus2, Plus4, Take;
    IsBase(data[1], s);
    var x, lo, hi := Add1(data[1], data[1], 0, 0, s, 7, Whole);
  }

  lemma {:induction false} Twelve2(data: seq<Word>, s: seq<Word>)
    requires |data| == |s| == 8
    ensures Is(Stir12(data, s)[2], data[2], 0x900F, 0xB011, s)
  {
    hide Is, Plus1, Plus2, Plus4, Take;
    IsBase(data[2], s);
    var x, lo, hi := Add4(data[2], data[2], 0, 0, s, 0, Low, 0, Down, 0, Up, 1, Low);
    x, lo, hi := Add4(x, data[2], lo, hi, s, 1, Down, 2, Up, 7, High, 6, Up);
    x, lo, hi := Add2(x, data[2], lo, hi, s, 7, Down, 6, Whole);
  }

  lemma {:induction false} Twelve3(data: seq<Word>, s: seq<Word>)
    requires |data| == |s| == 8
    ensures Is(Stir12(data, s)[3], data[3], 0xF02D, 0x7055, s)
  {
    hide Is, Plus1, Plus2, Plus4, Take;
    IsBase(data[3], s);
    var x, lo, hi := Add4(data[3], data[3], 0, 0, s, 0, Low, 0, Up, 2, Up, 1, Low);
    x, lo, hi := Add4(x, data[3], lo, hi, s, 1, Up, 1, Down, 7, Low, 2, Down);
    x, lo, hi := Add4(x, data[3], lo, hi, s, 3, Up, 6, Up, 6, Down, 7, Up);
    x, lo, hi := Add2(x, data[3], lo, hi, s, 7, Down, 6, Whole);
  }

  lemma {:induction false} Twelve4(data: seq<Word>, s: seq<Word>)
    requires |data| == |s| == 8
    ensures Is(Stir12(data, s)[4], data[4], 0xE0AA, 0x515B, s)
  {
    hide Is, Plus1, Plus2, Plus4, Take;
    IsBase(data[4], s);
    var x, lo, hi := Add4(data[4], data[4], 0, 0, s, 0, High, 0, Up, 0, Down, 1, High);
    x, lo, hi := Add4(x, data[4], lo, hi, s, 1, Down, 2, Up, 7, Low, 3, Up);
    x, lo, hi := Add4(x, data[4], lo, hi, s, 3, Down, 4, Up, 6, Up, 6, Down);
    x, lo, hi := Add2(x, data[4], lo, hi, s, 2, Down, 7, Up);
    x, lo, hi := Add1(x, data[4], lo, hi, s, 7, Down);
  }

  lemma {:induction false} Twelve5(data: seq<Word>, s: seq<Word>)
    requires |data| == |s| == 8
    ensures Is(Stir12(data, s)[5], data[5], 0xA2B6, 0xD563, s)
  {
    hide Is, Plus1, Plus2, Plus4, Take;
    IsBase(data[5], s);
    var x, lo, hi := Add4(data[5], data[5], 0, 0, s, 0, High, 0, Down, 0, Up, 1, Low);
    x, lo, hi := Add4(x, data[5], lo, hi, s, 7, Down, 2, Down, 7, High, 3, Down);
    x, lo, hi := Add4(x, data[5], lo, hi, s, 4, Up, 4, Down, 5, Up, 6, Up);
    x, lo, hi := Add4(x, data[5], lo, hi, s, 6, Down, 3, Up, 7, Up, 2, Whole);
  }

  lemma {:induction false} Twelve6(data: seq<Word>, s: seq<Word>)
    requires |data| == |s| == 8
    ensures Is(Stir12(data, s)[6], data[6], 0x3AC9, 0x7592, s)
  {
    hide Is, Plus1, Plus2, Plus4, Take;
    IsBase(data[6], s);
    var x, lo, hi := Add4(data[6], data[6], 0, 0, s, 4, Down, 1, Down, 2, Up, 7, Up);
    x, lo, hi := Add4(x, data[6], lo, hi, s, 3, Down, 4, Up, 5, Up, 5, Down);
    x, lo, hi := Add4(x, data[6], lo, hi, s, 6, Up, 6, Down, 6, Whole, 0, Whole);
    x, lo, hi := Add1(x, data[6], lo, hi, s, 3, Whole);
  }

  lemma {:induction false} Twelve7(data: seq<Word>, s: seq<Word>)
    requires |data| == |s| == 8
    ensures Is(Stir12(data, s)[7], data[7], 0xEB24, 0x4647, s)
  {
    hide Is, Plus1, Plus2, Plus4, Take;
    IsBase(data[7], s);
    var x, lo, hi := Add4(data[7], data[7], 0, 0, s, 0, High, 0, Up, 1, Up, 1, Low);
    x, lo, hi := Add4(x, data[7], lo, hi, s, 2, Down, 3, Up, 7, Low, 4, Down);
    x, lo, hi := Add4(x, data[7], lo, hi, s, 5, Up, 5, Down, 6, Down, 7, Up);
    x, lo, hi := Add2(x, data[7], lo, hi, s, 7, Down, 4, Whole);
  }

  lemma {:induction false} One0(hash: seq<Word>, u: seq<Word>)
    requires |hash| == |u| == 8
    ensures Is(Stir1(hash, u)[0], hash[0], 0x0002, 0x0004, u)
  {
    hide Is, Plus1, Plus2, Plus4, Take;
    IsBase(hash[0], u);
    var x, lo, hi := Add2(hash[0], hash[0], 0, 0, u, 1, Up, 0, Down);
  }

  lemma {:induction false} One1(hash: seq<Word>, u: seq<Word>)
    requires |hash| == |u| == 8
    ensures Is(Stir1(hash, u)[1], hash[1], 0x0008, 0x0010, u)
  {
    hide Is, Plus1, Plus2, Plus4, Take;
    IsBase(hash[1], u);
    var x, lo, hi := Add2(hash[1], hash[1], 0, 0, u, 2, Up, 1, Down);
  }

  lemma {:induction false} One2(hash: seq<Word>, u: seq<Word>)
    requires |hash| == |u| == 8
    ensures Is(Stir1(hash, u)[2], hash[2], 0x0020, 0x0040, u)
  {
    hide Is, Plus1, Plus2, Plus4, Take;
    IsBase(hash[2], u);
    var x, lo, hi := Add2(hash[2], hash[2], 0, 0, u, 3, Up, 2, Down);
  }

  lemma {:induction false} One3(hash: seq<Word>, u: seq<Word>)
    requires |hash| == |u| == 8
    ensures Is(Stir1(hash, u)[3], hash[3], 0x0080, 0x0100, u)
  {
    hide Is, Plus1, Plus2, Plus4, Take;
    IsBase(hash[3], u);
    var x, lo, hi := Add2(hash[3], hash[3], 0, 0, u, 4, Up, 3, Down);
  }

  lemma {:induction false} One4(hash: seq<Word>, u: seq<Word>)
    requires |hash| == |u| == 8
    ensures Is(Stir1(hash, u)[4], hash[4], 0x0200, 0x0400, u)
  {
    hide Is, Plus1, Plus2, Plus4, Take;
    IsBase(hash[4], u);
    var x, lo, hi := Add2(hash[4], hash[4], 0, 0, u, 5, Up, 4, Down);
  }

  lemma {:induction false} One5(hash: seq<Word>, u: seq<Word>)
    requires |hash| == |u| == 8
    ensures Is(Stir1(hash, u)[5], hash[5], 0x0800, 0x1000, u)
  {
    hide Is, Plus1, Plus2, Plus4, Take;
    IsBase(hash[5], u);
    var x, lo, hi := Add2(hash[5], hash[5], 0, 0, u, 6, Up, 5, Down);
  }

  lemma {:induction false} One6(hash: seq<Word>, u: seq<Word>)
    requires |hash| == |u| == 8
    ensures Is(Stir1(hash, u)[6], hash[6], 0x2000, 0x4000, u)
  {
    hide Is, Plus1, Plus2, Plus4, Take;
    IsBase(hash[6], u);
    var x, lo, hi := Add2(hash[6], hash[6], 0, 0, u, 7, Up, 6, Down);
  }

  lemma {:induction false} One7(hash: seq<Word>, u: seq<Word>)
    requires |hash| == |u| == 8
    ensures Is(Stir1(hash, u)[7], hash[7], 0x8000, 0x900F, u)
  {
    hide Is, Plus1, Plus2, Plus4, Take;
    IsBase(hash[7], u);
    var x, lo, hi := Add4(hash[7], hash[7], 0, 0, u, 7, Down, 0, Up, 1, High, 1, Up);
    x, lo, hi := Add2(x, hash[7], lo, hi, u, 7, High, 6, Up);
    x, lo, hi := Add1(x, hash[7], lo, hi, u, 0, High);
  }

  lemma {:induction false} SixtyOne0(v: seq<Word>)
    requires |v| == 8
    ensures Is(Stir61(v)[0], 0, 0xEC8A, 0x491B, v)
  {
    hide Is, Plus1, Plus2, Plus4, Take;
    IsBase(0, v);
    var x, lo, hi := Add4(0, 0, 0, 0, v, 0, High, 0, Up, 0, Down, 1, High);
    x, lo, hi := Add4(x, 0, lo, hi, v, 1, Down, 2, Up, 7, Low, 3, Down);
    x, lo, hi := Add4(x, 0, lo, hi, v, 4, Up, 5, Down, 6, Down, 7, Up);
    x, lo, hi := Add2(x, 0, lo, hi, v, 7, Down, 5, Whole);
  }

  lemma {:induction false} SixtyOne1(v: seq<Word>)
    requires |v| == 8
    ensures Is(Stir61(v)[1], 0, 0x9236, 0xB463, v)
  {
    hide Is, Plus1, Plus2, Plus4, Take;
    IsBase(0, v);
    var x, lo, hi := Add4(0, 0, 0, 0, v, 0, High, 0, Up, 0, Down, 1, Low);
    x, lo, hi := Add4(x, 0, lo, hi, v, 2, Down, 3, Up, 7, High, 4, Down);
    x, lo, hi := Add4(x, 0, lo, hi, v, 5, Up, 6, Up, 7, Down, 6, Whole);
    x, lo, hi := Add1(x, 0, lo, hi, v, 2, Whole);
  }

  lemma {:induction false} SixtyOne2(v: seq<Word>)
    requires |v| == 8
    ensures Is(Stir61(v)[2], 0, 0xF8C9, 0x619D, v)
  {
    hide Is, Plus1, Plus2, Plus4, Take;
    IsBase(0, v);
    var x, lo, hi := Add4(0, 0, 0, 0, v, 0, Low, 0, Up, 1, Up, 7, Low);
    x, lo, hi := Add4(x, 0, lo, hi, v, 1, Down, 2, Up, 1, High, 3, Down);
    x, lo, hi := Add4(x, 0, lo, hi, v, 4, Up, 5, Down, 6, Down, 7, Up);
    x, lo, hi := Add2(x, 0, lo, hi, v, 7, Down, 3, Whole);
    x, lo, hi := Add1(x, 0, lo, hi, v, 6, Whole);
  }

  lemma {:induction false} SixtyOne3(v: seq<Word>)
    requires |v| == 8
    ensures Is(Stir61(v)[3], 0, 0xC33A, 0x167B, v)
  {
    hide Is, Plus1, Plus2, Plus4, Take;
    IsBase(0, v);
    var x, lo, hi := Add4(0, 0, 0, 0, v, 0, High, 0, Up, 0, Down, 1, High);
    x, lo, hi := Add4(x, 0, lo, hi, v, 1, Down, 2, Up, 7, Low, 2, Down);
    x, lo, hi := Add4(x, 0, lo, hi, v, 3, Up, 4, Down, 5, Up, 6, Up);
    x, lo, hi := Add2(x, 0, lo, hi, v, 7, Down, 2, Whole);
    x, lo, hi := Add1(x, 0, lo, hi, v, 4, Whole);
  }

  lemma {:induction false} SixtyOne4(v: seq<Word>)
    requires |v| == 8
    ensures Is(Stir61(v)[4], 0, 0x2CF6, 0x59EC, v)
  {
    hide Is, Plus1, Plus2, Plus4, Take;
    IsBase(0, v);
    var x, lo, hi := Add4(0, 0, 0, 0, v, 0, Down, 1, Up, 2, Down, 3, Up);
    x, lo, hi := Add4(x, 0, lo, hi, v, 3, Down, 4, Up, 5, Down, 6, Up);
    x, lo, hi := Add4(x, 0, lo, hi, v, 6, Down, 7, Up, 1, Whole, 2, Whole);
    x, lo, hi := Add2(x, 0, lo, hi, v, 3, Whole, 5, Whole);
  }

  lemma {:induction false} SixtyOne5(v: seq<Word>)
    requires |v| == 8
    ensures Is(Stir61(v)[5], 0, 0xB3D8, 0xF7BF, v)
  {
    hide Is, Plus1, Plus2, Plus4, Take;
    IsBase(0, v);
    var x, lo, hi := Add4(0, 0, 0, 0, v, 0, High, 0, Up, 1, Up, 1, High);
    x, lo, hi := Add4(x, 0, lo, hi, v, 1, Down, 2, Up, 7, High, 3, Down);
    x, lo, hi := Add4(x, 0, lo, hi, v, 4, Up, 4, Down, 5, Up, 6, Up);
    x, lo, hi := Add4(x, 0, lo, hi, v, 6, Down, 7, Up, 7, Down, 2, Whole);
    x, lo, hi := Add2(x, 0, lo, hi, v, 3, Whole, 4, Whole);
    x, lo, hi := Add1(x, 0, lo, hi, v, 6, Whole);
  }

  lemma {:induction false} SixtyOne6(v: seq<Word>)
    requires |v| == 8
    ensures Is(Stir61(v)[6], 0, 0x7F71, 0xFEE2, v)
  {
    hide Is, Plus1, Plus2, Plus4, Take;
    IsBase(0, v);
    var x, lo, hi := Add4(0, 0, 0, 0, v, 2, Down, 3, Up, 4, Down, 5, Up);
    x, lo, hi := Add4(x, 0, lo, hi, v, 5, Down, 6, Up, 6, Down, 7, Up);
    x, lo, hi := Add4(x, 0, lo, hi, v, 7, Whole, 0, Whole, 2, Whole, 3, Whole);
    x, lo, hi := Add2(x, 0, lo, hi, v, 4, Whole, 5, Whole);
    x, lo, hi := Add1(x, 0, lo, hi, v, 6, Whole);
  }

  lemma {:induction false} SixtyOne7(v: seq<Word>)
    requires |v| == 8
    ensures Is(Stir61(v)[7], 0, 0x6DCB, 0xDB96, v)
  {
    hide Is, Plus1, Plus2, Plus4, Take;
    IsBase(0, v);
    var x, lo, hi := Add4(0, 0, 0, 0, v, 0, Down, 1, Up, 1, Down, 2, Up);
    x, lo, hi := Add4(x, 0, lo, hi, v, 3, Down, 4, Up, 5, Down, 6, Up);
    x, lo, hi := Add4(x, 0, lo, hi, v, 6, Down, 7, Up, 7, Whole, 0, Whole);
    x, lo, hi := Add2(x, 0, lo, hi, v, 3, Whole, 4, Whole);
    x, lo, hi := Add1(x, 0, lo, hi, v, 5, Whole);
  }

  // ---- the three stages together ----

  lemma {:induction false} StageWord(x: Word, base: Word, n: nat, i: nat, v: seq<Word>)
    requires |v| == 8 && i < 8 && Is(x, base, Power(n + 2 * i), Power(n + 2 * i + 1), v)
    ensures Lo(x) == Xor(Lo(base), PsiN(Halves(v), n)[2 * i])
    ensures Hi(x) == Xor(Hi(base), PsiN(Halves(v), n)[2 * i + 1])
  {
    hide Xor, Lo, Hi, Eval, Halves, PsiN, TimesN;
    AfterSteps(Halves(v), n, 2 * i);
    AfterSteps(Halves(v), n, 2 * i + 1);
  }

  /** All eight words are the base plus the register after n steps. */
  ghost predicate Stage(out: seq<Word>, base: seq<Word>, n: nat, v: seq<Word>)
    requires |out| == |base| == |v| == 8
  {
    forall i | 0 <= i < 8 :: Is(out[i], base[i], Power(n + 2 * i), Power(n + 2 * i + 1), v)
  }

  lemma {:induction false} Gather(out: seq<Word>, base: seq<Word>, n: nat, v: seq<Word>)
    requires |out| == |base| == |v| == 8 && Stage(out, base, n, v)
    ensures Halves(out) == Plus(Halves(base), PsiN(Halves(v), n))
  {
    hide Xor, Lo, Hi, Eval, PsiN, TimesN, Is, Power;
    forall k | 0 <= k < 16 ensures Halves(out)[k] == Plus(Halves(base), PsiN(Halves(v), n))[k] {
      var i := k / 2;
      assert Is(out[i], base[i], Power(n + 2 * i), Power(n + 2 * i + 1), v);
      StageWord(out[i], base[i], n, i, v);
      HalvesAt(out, i);
      HalvesAt(base, i);
      assert k == 2 * i || k == 2 * i + 1;
    }
  }

  lemma {:induction false} Stir12Mixes(data: seq<Word>, s: seq<Word>)
    requires |data| == |s| == 8
    ensures Halves(Stir12(data, s)) == Plus(Halves(data), PsiN(Halves(s), 12))
  {
    hide Halves, Plus, PsiN, Is, Power, Stir12;
    Powers0();
    Powers16();
    Twelve0(data, s);
    Twelve1(data, s);
    Twelve2(data, s);
    Twelve3(data, s);
    Twelve4(data, s);
    Twelve5(data, s);
    Twelve6(data, s);
    Twelve7(data, s);
    Gather(Stir12(data, s), data, 12, s);
  }

  lemma {:induction false} Stir1Mixes(hash: seq<Word>, u: seq<Word>)
    requires |hash| == |u| == 8
    ensures Halves(Stir1(hash, u)) == Plus(Halves(hash), PsiN(Halves(u), 1))
  {
    hide Halves, Plus, PsiN, Is, Power, Stir1;
    Powers0();
    Powers16();
    One0(hash, u);
    One1(hash, u);
    One2(hash, u);
    One3(hash, u);
    One4(hash, u);
    One5(hash, u);
    One6(hash, u);
    One7(hash, u);
    Gather(Stir1(hash, u), hash, 1, u);
  }

  function Zero(): seq<Word> {
    [0, 0, 0, 0, 0, 0, 0, 0]
  }

  lemma {:induction false} PlusZero(s: Register)
    ensures Plus(Halves(Zero()), s) == s
  {
    forall k | 0 <= k < 16 ensures Plus(Halves(Zero()), s)[k] == s[k] {
      assert Lo(0) == 0 && Hi(0) == 0;
      XorZero(s[k]);
    }
  }

  lemma {:induction false} Stir61Mixes(v: seq<Word>)
    requires |v| == 8
    ensures Halves(Stir61(v)) == PsiN(Halves(v), 61)
  {
    hide Halves, Plus, PsiN, Is, Power, Stir61;
    Powers48();
    Powers64();
    SixtyOne0(v);
    SixtyOne1(v);
    SixtyOne2(v);
    SixtyOne3(v);
    SixtyOne4(v);
    SixtyOne5(v);
    SixtyOne6(v);
    SixtyOne7(v);
    Gather(Stir61(v), Zero(), 61, v);
    PlusZero(PsiN(Halves(v), 61));
  }

  /** The end of the step function, in place: for every message block, every previous
      hash and every s, the unrolled formulas are the register stepped twelve times,
      once and sixty-one times, with the message and the previous hash added between. */
  method Mix(hash: array<Word>, data: seq<Word>, s: seq<Word>)
    requires hash.Length == 8 && |data| == |s| == 8
    modifies hash
    ensures Halves(hash[..]) ==
      PsiN(Plus(Halves(old(hash[..])), PsiN(Plus(Halves(data), PsiN(Halves(s), 12)), 1)), 61)
  {
    hide Halves, Plus, PsiN, Stir12, Stir1, Stir61;
    var u := Stir12(data, s);
    var v := Stir1(hash[..], u);
    var h := Stir61(v);
    Stir12Mixes(data, s);
    Stir1Mixes(hash[..], u);
    Stir61Mixes(v);
    forall i | 0 <= i < 8 {
      hash[i] := h[i];
    }
    assert hash[..] == h;
  }
}
