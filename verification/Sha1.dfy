/** SHA-1's compression function: a sixteen-word circular schedule and rounds that rename
    the registers instead of moving them, against the eighty-word definition of
    FIPS 180-4, section 6.1.2. */
module Sha1 {

  /** Thirty-two bits; addition wraps around. */
  type Word = x: int | 0 <= x < 0x1_0000_0000

  // ---- the source's word operations ----

  function Add(x: Word, y: Word): Word {
    if x + y < 0x1_0000_0000 then x + y else x + y - 0x1_0000_0000
  }

  function Xor(x: Word, y: Word): Word {
    (x as bv32 ^ y as bv32) as Word
  }

  function Rotl(x: bv32, n: nat): bv32
    requires 0 < n < 32
  {
    (x << n) | (x >> (32 - n))
  }

  function Rotl1(x: Word): Word {
    Rotl(x as bv32, 1) as Word
  }

  function Rotl5(x: Word): Word {
    Rotl(x as bv32, 5) as Word
  }

  function Rotl30(x: Word): Word {
    Rotl(x as bv32, 30) as Word
  }

  function F1(x: bv32, y: bv32, z: bv32): bv32 {
    (x & y) | (!x & z)
  }

  function F2(x: bv32, y: bv32, z: bv32): bv32 {
    x ^ y ^ z
  }

  function F3(x: bv32, y: bv32, z: bv32): bv32 {
    (x & y) | (x & z) | (y & z)
  }

  /** The function and the constant of round t, as the four round macros have them. */
  function CodeBits(t: nat, x: bv32, y: bv32, z: bv32): bv32 {
    if t < 20 then F1(x, y, z) else if t < 40 then F2(x, y, z) else if t < 60 then F3(x, y, z) else F2(x, y, z)
  }

  function CodeF(t: nat, x: Word, y: Word, z: Word): Word {
    CodeBits(t, x as bv32, y as bv32, z as bv32) as Word
  }

  function K(t: nat): Word {
    if t < 20 then 0x5A827999 else if t < 40 then 0x6ED9EBA1 else if t < 60 then 0x8F1BBCDC else 0xCA62C1D6
  }

  // ---- the standard's definition ----

  function Ch(x: bv32, y: bv32, z: bv32): bv32 {
    (x & y) ^ (!x & z)
  }

  function Parity(x: bv32, y: bv32, z: bv32): bv32 {
    x ^ y ^ z
  }

  function Maj(x: bv32, y: bv32, z: bv32): bv32 {
    (x & y) ^ (x & z) ^ (y & z)
  }

  function Bits(t: nat, x: bv32, y: bv32, z: bv32): bv32 {
    if t < 20 then Ch(x, y, z) else if 40 <= t < 60 then Maj(x, y, z) else Parity(x, y, z)
  }

  function F(t: nat, x: Word, y: Word, z: Word): Word {
    Bits(t, x as bv32, y as bv32, z as bv32) as Word
  }

  type Block = m: seq<Word> | |m| == 16 witness seq(16, _ => 0)

  /** Word t of the message schedule. */
  function Schedule(m: Block, t: nat): Word {
    if t < 16 then m[t]
    else Rotl1(Xor(Xor(Xor(Schedule(m, t - 3), Schedule(m, t - 8)), Schedule(m, t - 14)), Schedule(m, t - 16)))
  }

  datatype Registers = Registers(a: Word, b: Word, c: Word, d: Word, e: Word)

  function Round(r: Registers, t: nat, w: Word): Registers {
    var sum := Add(Add(Add(Add(Rotl5(r.a), F(t, r.b, r.c, r.d)), r.e), K(t)), w);
    Registers(sum, r.a, Rotl30(r.b), r.c, r.d)
  }

  function Rounds(r: Registers, m: Block, n: nat): Registers {
    if n == 0 then r else Round(Rounds(r, m, n - 1), n - 1, Schedule(m, n - 1))
  }

  type Hash = h: seq<Word> | |h| == 5 witness seq(5, _ => 0)

  function Load(h: Hash): Registers {
    Registers(h[0], h[1], h[2], h[3], h[4])
  }

  function Store(h: Hash, r: Registers): Hash {
    [Add(h[0], r.a), Add(h[1], r.b), Add(h[2], r.c), Add(h[3], r.d), Add(h[4], r.e)]
  }

  function Compress(h: Hash, m: Block): Hash {
    Store(h, Rounds(Load(h), m, 80))
  }

  // ---- what the word operations do, by bits ----

  lemma {:induction false} BackAgain(b: bv32)
    ensures (b as Word) as bv32 == b
  {
  }

  /** b is a with its bits 1 place further up and its top bits at the bottom. */
  predicate UpBy1(a: bv32, b: bv32) {
    b >> 1 == a & 0x7FFF_FFFF && b & 0x1 == a >> 31
  }

  lemma {:induction false} Turns1(x: Word)
    ensures UpBy1(x as bv32, Rotl1(x) as bv32)
  {
    hide UpBy1;
    var a := x as bv32;
    Halves1(a);
    BackAgain(Rotl(a, 1));
  }

  lemma {:induction false} Halves1(a: bv32)
    ensures UpBy1(a, Rotl(a, 1))
  {
    assert Rotl(a, 1) == (a << 1) | (a >> 31);
  }

  /** b is a with its bits 5 places further up and its top bits at the bottom. */
  predicate UpBy5(a: bv32, b: bv32) {
    b >> 5 == a & 0x07FF_FFFF && b & 0x1F == a >> 27
  }

  lemma {:induction false} Turns5(x: Word)
    ensures UpBy5(x as bv32, Rotl5(x) as bv32)
  {
    hide UpBy5;
    var a := x as bv32;
    Halves5(a);
    BackAgain(Rotl(a, 5));
  }

  lemma {:induction false} Halves5(a: bv32)
    ensures UpBy5(a, Rotl(a, 5))
  {
    assert Rotl(a, 5) == (a << 5) | (a >> 27);
  }

  /** b is a with its bits 30 places further up and its top bits at the bottom. */
  predicate UpBy30(a: bv32, b: bv32) {
    b >> 30 == a & 0x3 && b & 0x3FFF_FFFF == a >> 2
  }

  lemma {:induction false} Turns30(x: Word)
    ensures UpBy30(x as bv32, Rotl30(x) as bv32)
  {
    hide UpBy30;
    var a := x as bv32;
    Halves30(a);
    BackAgain(Rotl(a, 30));
  }

  lemma {:induction false} Halves30(a: bv32)
    ensures UpBy30(a, Rotl(a, 30))
  {
    assert Rotl(a, 30) == (a << 30) | (a >> 2);
  }

  /** Place by place: where x is set f is y, elsewhere z. */
  predicate Chooses(x: bv32, y: bv32, z: bv32, f: bv32) {
    x & f == x & y && !x & f == !x & z
  }

  /** Where x and y agree f is what they agree on, elsewhere z. */
  predicate GoesWithMost(x: bv32, y: bv32, z: bv32, f: bv32) {
    !(x ^ y) & f == !(x ^ y) & x && (x ^ y) & f == (x ^ y) & z
  }

  /** Where x and y agree f is z, elsewhere not z. */
  predicate CountsOdd(x: bv32, y: bv32, z: bv32, f: bv32) {
    !(x ^ y) & f == !(x ^ y) & z && (x ^ y) & f == (x ^ y) & !z
  }

  lemma {:induction false} ChChooses(x: bv32, y: bv32, z: bv32)
    ensures Chooses(x, y, z, Ch(x, y, z))
  {
    ChoiceOfBits(x, y, z, Ch(x, y, z));
  }

  lemma {:induction false} ChoiceOfBits(x: bv32, y: bv32, z: bv32, f: bv32)
    requires f == (x & y) ^ (!x & z)
    ensures x & f == x & y && !x & f == !x & z
  {
  }

  lemma {:induction false} MajGoesWithMost(x: bv32, y: bv32, z: bv32)
    ensures GoesWithMost(x, y, z, Maj(x, y, z))
  {
    MajorityOfBits(x, y, z, Maj(x, y, z));
  }

  lemma {:induction false} MajorityOfBits(x: bv32, y: bv32, z: bv32, f: bv32)
    requires f == (x & y) ^ (x & z) ^ (y & z)
    ensures !(x ^ y) & f == !(x ^ y) & x && (x ^ y) & f == (x ^ y) & z
  {
  }

  lemma {:induction false} ParityCountsOdd(x: bv32, y: bv32, z: bv32)
    ensures CountsOdd(x, y, z, Parity(x, y, z))
  {
    ParityOfBits(x, y, z, Parity(x, y, z));
  }

  lemma {:induction false} ParityOfBits(x: bv32, y: bv32, z: bv32, f: bv32)
    requires f == x ^ y ^ z
    ensures !(x ^ y) & f == !(x ^ y) & z && (x ^ y) & f == (x ^ y) & !z
  {
  }

  /** Choice in the first twenty rounds, majority in the third twenty, parity in the others. */
  lemma {:induction false} RoundFunctions(t: nat, x: bv32, y: bv32, z: bv32)
    ensures t < 20 ==> Chooses(x, y, z, Bits(t, x, y, z))
    ensures 40 <= t < 60 ==> GoesWithMost(x, y, z, Bits(t, x, y, z))
    ensures 20 <= t < 40 || 60 <= t ==> CountsOdd(x, y, z, Bits(t, x, y, z))
  {
    hide Chooses, GoesWithMost, CountsOdd, Ch, Maj, Parity;
    ChChooses(x, y, z);
    MajGoesWithMost(x, y, z);
    ParityCountsOdd(x, y, z);
  }

  lemma {:induction false} AddWraps(x: Word, y: Word)
    ensures Add(x, y) == (x + y) % 0x1_0000_0000
  {
  }

  /** The schedule mixes the words 3, 8, 14 and 16 places back and turns the sum up by one
      place. */
  lemma {:induction false} ScheduleTurnsUp(m: Block, t: nat)
    requires t >= 16
    ensures var sum := Xor(Xor(Xor(Schedule(m, t - 3), Schedule(m, t - 8)), Schedule(m, t - 14)), Schedule(m, t - 16));
      UpBy1(sum as bv32, Schedule(m, t) as bv32)
  {
    hide UpBy1, Xor, Rotl1;
    Turns1(Xor(Xor(Xor(Schedule(m, t - 3), Schedule(m, t - 8)), Schedule(m, t - 14)), Schedule(m, t - 16)));
  }

  // ---- every round can be undone ----

  function Sub(x: Word, y: Word): Word {
    if x >= y then x - y else x - y + 0x1_0000_0000
  }

  function Rotl2(x: Word): Word {
    Rotl(x as bv32, 2) as Word
  }

  lemma {:induction false} TurnedRound(b: bv32)
    ensures Rotl(Rotl(b, 30), 2) == b
  {
    assert Rotl(b, 30) == (b << 30) | (b >> 2);
    assert (((b << 30) | (b >> 2)) << 2) | (((b << 30) | (b >> 2)) >> 30) == b;
  }

  predicate BitsAgree(x: Word, y: Word) {
    x as bv32 == y as bv32
  }

  lemma {:induction false} SameChoice(t: nat, x: Word, x': Word, y: Word, z: Word)
    requires BitsAgree(x, x')
    ensures F(t, x, y, z) == F(t, x', y, z)
  {
    hide Bits;
  }

  lemma {:induction false} TurnedBack(x: Word)
    ensures BitsAgree(Rotl2(Rotl30(x)), x)
  {
    hide Rotl;
    var b := x as bv32;
    BackAgain(Rotl(b, 30));
    BackAgain(Rotl(Rotl(b, 30), 2));
    TurnedRound(b);
  }

  lemma {:induction false} AddSub(x: Word, y: Word)
    ensures Sub(Add(x, y), y) == x
  {
  }

  /** The registers before a round, from those after it. */
  function Undone(r: Registers, t: nat, w: Word): Registers {
    var a, b, c, d := r.b, Rotl2(r.c), r.d, r.e;
    Registers(a, b, c, d, Sub(Sub(Sub(Sub(r.a, w), K(t)), F(t, b, c, d)), Rotl5(a)))
  }

  /** A round loses nothing: it is a permutation of the registers for every word. */
  lemma {:induction false} RoundUndone(r: Registers, t: nat, w: Word)
    ensures var u := Undone(Round(r, t, w), t, w);
      u.a == r.a && BitsAgree(u.b, r.b) && u.c == r.c && u.d == r.d && u.e == r.e
  {
    hide Rotl5, Rotl30, Rotl2, F, K, Add, Sub, BitsAgree;
    var x, f := Rotl5(r.a), F(t, r.b, r.c, r.d);
    TurnedBack(r.b);
    SameChoice(t, Rotl2(Rotl30(r.b)), r.b, r.c, r.d);
    AddSub(Add(Add(Add(x, f), r.e), K(t)), w);
    AddSub(Add(Add(x, f), r.e), K(t));
    Commutes(Add(x, f), r.e);
    AddAssociates(r.e, x, f);
    AddSub(Add(r.e, x), f);
    AddSub(r.e, x);
  }

  lemma {:induction false} Commutes(x: Word, y: Word)
    ensures Add(x, y) == Add(y, x)
  {
  }

  lemma {:induction false} AddAssociates(x: Word, y: Word, z: Word)
    ensures Add(x, Add(y, z)) == Add(Add(x, y), z)
  {
  }

  // ---- the source's round ----

  /** The new e and b of a round macro; the other registers stay where they are. */
  function RenamedRound(t: nat, a: Word, b: Word, c: Word, d: Word, e: Word, w: Word): (Word, Word) {
    (Add(e, Add(Add(Add(Rotl5(a), CodeF(t, b, c, d)), K(t)), w)), Rotl30(b))
  }

  lemma {:induction false} F1IsCh(x: bv32, y: bv32, z: bv32)
    ensures F1(x, y, z) == Ch(x, y, z)
  {
    assert (x & y) | (!x & z) == (x & y) ^ (!x & z);
  }

  lemma {:induction false} F3IsMaj(x: bv32, y: bv32, z: bv32)
    ensures F3(x, y, z) == Maj(x, y, z)
  {
    assert (x & y) | (x & z) | (y & z) == (x & y) ^ (x & z) ^ (y & z);
  }

  lemma {:induction false} SameBits(t: nat, x: bv32, y: bv32, z: bv32)
    ensures CodeBits(t, x, y, z) == Bits(t, x, y, z)
  {
    hide F1, F3, Ch, Maj;
    F1IsCh(x, y, z);
    F3IsMaj(x, y, z);
  }

  lemma {:induction false} SameF(t: nat, x: Word, y: Word, z: Word)
    ensures CodeF(t, x, y, z) == F(t, x, y, z)
  {
    hide CodeBits, Bits;
    SameBits(t, x as bv32, y as bv32, z as bv32);
  }

  lemma {:induction false} AddAssoc(x: Word, y: Word, z: Word)
    ensures Add(Add(x, y), z) == Add(x, Add(y, z))
  {
  }

  lemma {:induction false} AddComm(x: Word, y: Word)
    ensures Add(x, y) == Add(y, x)
  {
  }

  lemma {:induction false} SameSum(e: Word, s: Word, k: Word, w: Word)
    ensures Add(e, Add(Add(s, k), w)) == Add(Add(Add(s, e), k), w)
  {
    hide Add;
    AddAssoc(e, Add(s, k), w);
    AddAssoc(e, s, k);
    AddComm(e, s);
  }

  /** Renaming: the round's e and b, read in the shifted order, are the standard's round. */
  lemma {:induction false} RenamedIsRound(t: nat, r: Registers, w: Word)
    ensures var (e, b) := RenamedRound(t, r.a, r.b, r.c, r.d, r.e, w);
      Registers(e, r.a, b, r.c, r.d) == Round(r, t, w)
  {
    hide Add, Rotl5, Rotl30, CodeF, F, K;
    SameF(t, r.b, r.c, r.d);
    SameSum(r.e, Add(Rotl5(r.a), F(t, r.b, r.c, r.d)), K(t), w);
  }

  // ---- the circular schedule ----

  /** Before round t the buffer holds the last sixteen words of the schedule. */
  ghost predicate Holds(w: seq<Word>, m: Block, t: nat) {
    && |w| == 16
    && forall j | 0 <= j && t - 16 <= j && (j < t || j < 16) :: w[j % 16] == Schedule(m, j)
  }

  /** The word of round t: taken from the buffer, or computed into it. */
  method NextWord(w: array<Word>, t: nat, ghost m: Block) returns (x: Word)
    requires w.Length == 16 && Holds(w[..], m, t)
    modifies w
    ensures x == Schedule(m, t) && Holds(w[..], m, t + 1)
  {
    hide Rotl1, Xor;
    if t >= 16 {
      w[t % 16] := Rotl1(Xor(Xor(Xor(w[(t - 3) % 16], w[(t - 8) % 16]), w[(t - 14) % 16]), w[(t - 16) % 16]));
    }
    x := w[t % 16];
  }

  // ---- the compression function ----

  /** One renamed round, in the standard's terms. */
  lemma {:induction false} Advance(r0: Registers, m: Block, t: nat, r: Registers, x: Word)
    requires r == Rounds(r0, m, t) && x == Schedule(m, t)
    ensures var (e, b) := RenamedRound(t, r.a, r.b, r.c, r.d, r.e, x);
      Registers(e, r.a, b, r.c, r.d) == Rounds(r0, m, t + 1)
  {
    hide RenamedRound, Round, Schedule;
    RenamedIsRound(t, r, x);
  }

  /** Five rounds, after which every register has its own name again. */
  method FiveRounds(w: array<Word>, t: nat, r: Registers, ghost r0: Registers, ghost m: Block) returns (r': Registers)
    requires w.Length == 16 && Holds(w[..], m, t) && r == Rounds(r0, m, t)
    modifies w
    ensures Holds(w[..], m, t + 5) && r' == Rounds(r0, m, t + 5)
  {
    hide RenamedRound, Rounds, Schedule, Holds;
    var a, b, c, d, e := r.a, r.b, r.c, r.d, r.e;
    var x := NextWord(w, t, m);
    Advance(r0, m, t, Registers(a, b, c, d, e), x);
    var p := RenamedRound(t, a, b, c, d, e, x);
    e, b := p.0, p.1;
    x := NextWord(w, t + 1, m);
    Advance(r0, m, t + 1, Registers(e, a, b, c, d), x);
    p := RenamedRound(t + 1, e, a, b, c, d, x);
    d, a := p.0, p.1;
    x := NextWord(w, t + 2, m);
    Advance(r0, m, t + 2, Registers(d, e, a, b, c), x);
    p := RenamedRound(t + 2, d, e, a, b, c, x);
    c, e := p.0, p.1;
    x := NextWord(w, t + 3, m);
    Advance(r0, m, t + 3, Registers(c, d, e, a, b), x);
    p := RenamedRound(t + 3, c, d, e, a, b, x);
    b, d := p.0, p.1;
    x := NextWord(w, t + 4, m);
    Advance(r0, m, t + 4, Registers(b, c, d, e, a), x);
    p := RenamedRound(t + 4, b, c, d, e, a, x);
    a, c := p.0, p.1;
    r' := Registers(a, b, c, d, e);
  }

  method Process(hash: array<Word>, data: Block)
    requires hash.Length == 5
    modifies hash
    ensures hash[..] == Compress(old(hash[..]), data)
  {
    hide Rounds, Schedule, Add;
    ghost var h: Hash := hash[..];
    var w := new Word[16](i requires 0 <= i < 16 => data[i]);
    HoldsStart(w[..], data);
    var r := Registers(hash[0], hash[1], hash[2], hash[3], hash[4]);
    ghost var r0 := r;
    NoRounds(r0, data);
    for g := 0 to 16
      invariant r == Rounds(r0, data, 5 * g) && Holds(w[..], data, 5 * g) && hash[..] == h
    {
      hide Holds;
      r := FiveRounds(w, 5 * g, r, r0, data);
    }
    hash[0] := Add(hash[0], r.a);
    hash[1] := Add(hash[1], r.b);
    hash[2] := Add(hash[2], r.c);
    hash[3] := Add(hash[3], r.d);
    hash[4] := Add(hash[4], r.e);
    assert hash[..] == Store(h, r);
  }

  lemma {:induction false} NoRounds(r: Registers, m: Block)
    ensures Rounds(r, m, 0) == r
  {
  }

  lemma {:induction false} HoldsStart(w: seq<Word>, m: Block)
    requires w == m
    ensures Holds(w, m, 0)
  {
  }
}
