/** What SHA-256's word operations do to the bits of a word. */
module Sigma256 {
  import opened Sha2
  import opened Sha256

  /** The bits of x but its bottom n are those of r but its top n, and the bottom n of x are
      the top n of r. */
  predicate Down(x: bv32, r: bv32, n: nat)
    requires 0 < n < 32
  {
    r << n == (x >> n) << n && r >> (32 - n) == (x << (32 - n)) >> (32 - n)
  }

  // The rotation moves all bits down and the bottom ones to the top, for every amount in use.

  lemma {:induction false} Down2(x: bv32)
    ensures Down(x, Rotr(x, 2), 2)
  {
    assert Rotr(x, 2) == (x >> 2) | (x << 30);
  }

  lemma {:induction false} Down6(x: bv32)
    ensures Down(x, Rotr(x, 6), 6)
  {
    assert Rotr(x, 6) == (x >> 6) | (x << 26);
  }

  lemma {:induction false} Down7(x: bv32)
    ensures Down(x, Rotr(x, 7), 7)
  {
    assert Rotr(x, 7) == (x >> 7) | (x << 25);
  }

  lemma {:induction false} Down11(x: bv32)
    ensures Down(x, Rotr(x, 11), 11)
  {
    assert Rotr(x, 11) == (x >> 11) | (x << 21);
  }

  lemma {:induction false} Down13(x: bv32)
    ensures Down(x, Rotr(x, 13), 13)
  {
    assert Rotr(x, 13) == (x >> 13) | (x << 19);
  }

  lemma {:induction false} Down17(x: bv32)
    ensures Down(x, Rotr(x, 17), 17)
  {
    assert Rotr(x, 17) == (x >> 17) | (x << 15);
  }

  lemma {:induction false} Down18(x: bv32)
    ensures Down(x, Rotr(x, 18), 18)
  {
    assert Rotr(x, 18) == (x >> 18) | (x << 14);
  }

  lemma {:induction false} Down19(x: bv32)
    ensures Down(x, Rotr(x, 19), 19)
  {
    assert Rotr(x, 19) == (x >> 19) | (x << 13);
  }

  lemma {:induction false} Down22(x: bv32)
    ensures Down(x, Rotr(x, 22), 22)
  {
    assert Rotr(x, 22) == (x >> 22) | (x << 10);
  }

  lemma {:induction false} Down25(x: bv32)
    ensures Down(x, Rotr(x, 25), 25)
  {
    assert Rotr(x, 25) == (x >> 25) | (x << 7);
  }

  /** The bits of x but its bottom n are those of r but its top n, which are clear. */
  predicate Dropped(x: bv32, r: bv32, n: nat)
    requires 0 < n < 32
  {
    r << n == (x >> n) << n && r >> (32 - n) == 0
  }

  lemma {:induction false} Dropped3(x: bv32)
    ensures Dropped(x, Shr(x, 3), 3)
  {
    assert Shr(x, 3) == x >> 3;
  }

  lemma {:induction false} Dropped10(x: bv32)
    ensures Dropped(x, Shr(x, 10), 10)
  {
    assert Shr(x, 10) == x >> 10;
  }

  lemma {:induction false} BackAgain(b: bv32, n: nat)
    requires n == b as nat
    ensures n < 0x1_0000_0000 && n as bv32 == b
  {
  }

  lemma {:induction false} SmallMod(n: nat)
    requires n < 0x1_0000_0000
    ensures n % 0x1_0000_0000 == n
  {
  }

  lemma {:induction false} LowAgain(b: bv32)
    ensures Low(b as nat) == b
  {
    var n := b as nat;
    BackAgain(b, n);
    SmallMod(n);
  }

  /** The schedule's first function: two rotations and a shift. */
  predicate IsSmall0(x: bv32, a: bv32, b: bv32, c: bv32, r: bv32) {
    Down(x, a, 7) && Down(x, b, 18) && Dropped(x, c, 3) && r == a ^ b ^ c
  }

  lemma {:induction false} Small0OnBits(x: bv32)
    ensures IsSmall0(x, Rotr(x, 7), Rotr(x, 18), Shr(x, 3), Small0Bits(x))
  {
    hide Down, Rotr, Dropped, Shr;
    Down7(x);
    Down18(x);
    Dropped3(x);
  }

  lemma {:induction false} Small0OnWords(n: nat)
    ensures var x := Low(n); IsSmall0(x, Rotr(x, 7), Rotr(x, 18), Shr(x, 3), Low(Small0(n)))
  {
    hide IsSmall0, Small0Bits, Low, Rotr, Shr;
    Small0OnBits(Low(n));
    LowAgain(Small0Bits(Low(n)));
  }

  /** Its second function. */
  predicate IsSmall1(x: bv32, a: bv32, b: bv32, c: bv32, r: bv32) {
    Down(x, a, 17) && Down(x, b, 19) && Dropped(x, c, 10) && r == a ^ b ^ c
  }

  lemma {:induction false} Small1OnBits(x: bv32)
    ensures IsSmall1(x, Rotr(x, 17), Rotr(x, 19), Shr(x, 10), Small1Bits(x))
  {
    hide Down, Rotr, Dropped, Shr;
    Down17(x);
    Down19(x);
    Dropped10(x);
  }

  lemma {:induction false} Small1OnWords(n: nat)
    ensures var x := Low(n); IsSmall1(x, Rotr(x, 17), Rotr(x, 19), Shr(x, 10), Low(Small1(n)))
  {
    hide IsSmall1, Small1Bits, Low, Rotr, Shr;
    Small1OnBits(Low(n));
    LowAgain(Small1Bits(Low(n)));
  }

  /** The rounds' first function: three rotations. */
  predicate IsBig0(x: bv32, a: bv32, b: bv32, c: bv32, r: bv32) {
    Down(x, a, 2) && Down(x, b, 13) && Down(x, c, 22) && r == a ^ b ^ c
  }

  lemma {:induction false} Big0OnBits(x: bv32)
    ensures IsBig0(x, Rotr(x, 2), Rotr(x, 13), Rotr(x, 22), Big0Bits(x))
  {
    hide Down, Rotr;
    Down2(x);
    Down13(x);
    Down22(x);
  }

  lemma {:induction false} Big0OnWords(n: nat)
    ensures var x := Low(n); IsBig0(x, Rotr(x, 2), Rotr(x, 13), Rotr(x, 22), Low(Big0(n)))
  {
    hide IsBig0, Big0Bits, Low, Rotr;
    Big0OnBits(Low(n));
    LowAgain(Big0Bits(Low(n)));
  }

  /** Its second function. */
  predicate IsBig1(x: bv32, a: bv32, b: bv32, c: bv32, r: bv32) {
    Down(x, a, 6) && Down(x, b, 11) && Down(x, c, 25) && r == a ^ b ^ c
  }

  lemma {:induction false} Big1OnBits(x: bv32)
    ensures IsBig1(x, Rotr(x, 6), Rotr(x, 11), Rotr(x, 25), Big1Bits(x))
  {
    hide Down, Rotr;
    Down6(x);
    Down11(x);
    Down25(x);
  }

  lemma {:induction false} Big1OnWords(n: nat)
    ensures var x := Low(n); IsBig1(x, Rotr(x, 6), Rotr(x, 11), Rotr(x, 25), Low(Big1(n)))
  {
    hide IsBig1, Big1Bits, Low, Rotr;
    Big1OnBits(Low(n));
    LowAgain(Big1Bits(Low(n)));
  }

  /** Place by place: where x is set the choice is y, elsewhere z. */
  predicate Chooses(x: bv32, y: bv32, z: bv32, f: bv32) {
    x & f == x & y && !x & f == !x & z
  }

  /** Where x and y agree the majority is what they agree on, elsewhere z. */
  predicate GoesWithMost(x: bv32, y: bv32, z: bv32, f: bv32) {
    !(x ^ y) & f == !(x ^ y) & x && (x ^ y) & f == (x ^ y) & z
  }

  lemma {:induction false} ChChooses(x: bv32, y: bv32, z: bv32)
    ensures Chooses(x, y, z, ChBits(x, y, z))
  {
    ChoiceOfBits(x, y, z, ChBits(x, y, z));
  }

  lemma {:induction false} ChoiceOfBits(x: bv32, y: bv32, z: bv32, f: bv32)
    requires f == (x & y) ^ (!x & z)
    ensures x & f == x & y && !x & f == !x & z
  {
  }

  lemma {:induction false} MajGoesWithMost(x: bv32, y: bv32, z: bv32)
    ensures GoesWithMost(x, y, z, MajBits(x, y, z))
  {
    MajorityOfBits(x, y, z, MajBits(x, y, z));
  }

  lemma {:induction false} MajorityOfBits(x: bv32, y: bv32, z: bv32, f: bv32)
    requires f == (x & y) ^ (x & z) ^ (y & z)
    ensures !(x ^ y) & f == !(x ^ y) & x && (x ^ y) & f == (x ^ y) & z
  {
  }

  lemma {:induction false} ChoiceOnWords(l: nat, m: nat, n: nat)
    ensures Chooses(Low(l), Low(m), Low(n), Low(Ch(l, m, n)))
    ensures GoesWithMost(Low(l), Low(m), Low(n), Low(Maj(l, m, n)))
  {
    hide Chooses, GoesWithMost, ChBits, MajBits, Low;
    var x, y, z := Low(l), Low(m), Low(n);
    ChChooses(x, y, z);
    MajGoesWithMost(x, y, z);
    LowAgain(ChBits(x, y, z));
    LowAgain(MajBits(x, y, z));
  }

  /** The operations that the standard's compression function is given are these. */
  lemma {:induction false} StandardOperations(l: nat, m: nat, n: nat)
    ensures var ops, x := StandardOps(), Low(n);
      && ops.rounds == 64 && ops.add(m, n) == (m + n) % 0x1_0000_0000 && ops.k(n) == K(n)
      && IsSmall0(x, Rotr(x, 7), Rotr(x, 18), Shr(x, 3), Low(ops.small0(n)))
      && IsSmall1(x, Rotr(x, 17), Rotr(x, 19), Shr(x, 10), Low(ops.small1(n)))
      && IsBig0(x, Rotr(x, 2), Rotr(x, 13), Rotr(x, 22), Low(ops.big0(n)))
      && IsBig1(x, Rotr(x, 6), Rotr(x, 11), Rotr(x, 25), Low(ops.big1(n)))
      && Chooses(Low(l), Low(m), x, Low(ops.ch(l, m, n)))
      && GoesWithMost(Low(l), Low(m), x, Low(ops.maj(l, m, n)))
  {
    hide IsSmall0, IsSmall1, IsBig0, IsBig1, Chooses, GoesWithMost, Low, Rotr, Shr;
    hide Small0, Small1, Big0, Big1, Ch, Maj, K;
    Small0OnWords(n);
    Small1OnWords(n);
    Big0OnWords(n);
    Big1OnWords(n);
    ChoiceOnWords(l, m, n);
  }

  // ---- every round can be undone ----

  const M: nat := 0x1_0000_0000

  function Sub(x: nat, y: nat): nat {
    (x - y) % M
  }

  predicate InRange(r: Registers) {
    && r.a < M && r.b < M && r.c < M && r.d < M && r.e < M && r.f < M && r.g < M && r.h < M
  }

  lemma {:induction false} AddSub(x: nat, y: nat)
    requires x < M
    ensures Sub(Add(x, y), y) == x && Sub(Add(y, x), y) == x
  {
    Wraps(x, y);
  }

  lemma {:induction false} Wraps(x: nat, y: nat)
    requires x < M
    ensures ((x + y) % M - y) % M == x
  {
    var q := (x + y) / M;
    assert (x + y) % M - y == x - q * M;
    assert (x - q * M) % M == x;
  }

  lemma {:induction false} AddInRange(x: nat, y: nat)
    ensures Add(x, y) < M
  {
  }

  /** The registers before a round, from those after it. */
  function Undone(r: Registers, x: nat, k: nat): Registers {
    var a, b, c, e, f, g := r.b, r.c, r.d, r.f, r.g, r.h;
    var t1 := Sub(r.a, Add(Big0(a), Maj(a, b, c)));
    Registers(a, b, c, Sub(r.e, t1), e, f, g, Sub(Sub(Sub(Sub(t1, x), k), Ch(e, f, g)), Big1(e)))
  }

  /** A round loses nothing: it is a permutation of the registers for every word. */
  lemma {:induction false} RoundUndone(r: Registers, x: nat, k: nat)
    requires InRange(r)
    ensures Undone(Round(StandardOps(), r, x, k), x, k) == r
  {
    hide Big0, Big1, Maj, Ch, Add, Sub;
    var s1, s2, s3 := Add(r.h, Big1(r.e)), Add(Add(r.h, Big1(r.e)), Ch(r.e, r.f, r.g)), 0;
    s3 := Add(s2, k);
    var t1, t2 := Add(s3, x), Add(Big0(r.a), Maj(r.a, r.b, r.c));
    AddInRange(r.h, Big1(r.e));
    AddInRange(s1, Ch(r.e, r.f, r.g));
    AddInRange(s2, k);
    AddInRange(s3, x);
    AddSub(t1, t2);
    AddSub(r.d, t1);
    AddSub(s3, x);
    AddSub(s2, k);
    AddSub(s1, Ch(r.e, r.f, r.g));
    AddSub(r.h, Big1(r.e));
  }

  /** The schedule can be run backwards: the word sixteen places back is what the other three
      do not account for. */
  lemma {:induction false} ScheduleUndone(m: Block, t: nat)
    requires t >= 16 && Schedule(StandardOps(), m, t - 16) < M
    ensures var w := i requires 0 <= i <= t => Schedule(StandardOps(), m, i);
      w(t - 16) == Sub(w(t), Add(Add(Small1(w(t - 2)), w(t - 7)), Small0(w(t - 15))))
  {
    hide Small0, Small1, Add, Sub;
    var ops := StandardOps();
    var y := Add(Add(Small1(Schedule(ops, m, t - 2)), Schedule(ops, m, t - 7)), Small0(Schedule(ops, m, t - 15)));
    AddSub(Schedule(ops, m, t - 16), y);
  }
}

/** What SHA-512's word operations do to the bits of a word. */
module Sigma512 {
  import opened Sha2
  import opened Sha512

  /** The bits of x but its bottom n are those of r but its top n, and the bottom n of x are
      the top n of r. */
  predicate Down(x: bv64, r: bv64, n: nat)
    requires 0 < n < 64
  {
    r << n == (x >> n) << n && r >> (64 - n) == (x << (64 - n)) >> (64 - n)
  }

  // The rotation moves all bits down and the bottom ones to the top, for every amount in use.

  lemma {:induction false} Down1(x: bv64)
    ensures Down(x, Rotr(x, 1), 1)
  {
    assert Rotr(x, 1) == (x >> 1) | (x << 63);
  }

  lemma {:induction false} Down8(x: bv64)
    ensures Down(x, Rotr(x, 8), 8)
  {
    assert Rotr(x, 8) == (x >> 8) | (x << 56);
  }

  lemma {:induction false} Down14(x: bv64)
    ensures Down(x, Rotr(x, 14), 14)
  {
    assert Rotr(x, 14) == (x >> 14) | (x << 50);
  }

  lemma {:induction false} Down18(x: bv64)
    ensures Down(x, Rotr(x, 18), 18)
  {
    assert Rotr(x, 18) == (x >> 18) | (x << 46);
  }

  lemma {:induction false} Down19(x: bv64)
    ensures Down(x, Rotr(x, 19), 19)
  {
    assert Rotr(x, 19) == (x >> 19) | (x << 45);
  }

  lemma {:induction false} Down28(x: bv64)
    ensures Down(x, Rotr(x, 28), 28)
  {
    assert Rotr(x, 28) == (x >> 28) | (x << 36);
  }

  lemma {:induction false} Down34(x: bv64)
    ensures Down(x, Rotr(x, 34), 34)
  {
    assert Rotr(x, 34) == (x >> 34) | (x << 30);
  }

  lemma {:induction false} Down39(x: bv64)
    ensures Down(x, Rotr(x, 39), 39)
  {
    assert Rotr(x, 39) == (x >> 39) | (x << 25);
  }

  lemma {:induction false} Down41(x: bv64)
    ensures Down(x, Rotr(x, 41), 41)
  {
    assert Rotr(x, 41) == (x >> 41) | (x << 23);
  }

  lemma {:induction false} Down61(x: bv64)
    ensures Down(x, Rotr(x, 61), 61)
  {
    assert Rotr(x, 61) == (x >> 61) | (x << 3);
  }

  /** The bits of x but its bottom n are those of r but its top n, which are clear. */
  predicate Dropped(x: bv64, r: bv64, n: nat)
    requires 0 < n < 64
  {
    r << n == (x >> n) << n && r >> (64 - n) == 0
  }

  lemma {:induction false} Dropped7(x: bv64)
    ensures Dropped(x, Shr(x, 7), 7)
  {
    assert Shr(x, 7) == x >> 7;
  }

  lemma {:induction false} Dropped6(x: bv64)
    ensures Dropped(x, Shr(x, 6), 6)
  {
    assert Shr(x, 6) == x >> 6;
  }

  lemma {:induction false} BackAgain(b: bv64, n: nat)
    requires n == b as nat
    ensures n < 0x1_0000_0000_0000_0000 && n as bv64 == b
  {
  }

  lemma {:induction false} SmallMod(n: nat)
    requires n < 0x1_0000_0000_0000_0000
    ensures n % 0x1_0000_0000_0000_0000 == n
  {
  }

  lemma {:induction false} LowAgain(b: bv64)
    ensures Low(b as nat) == b
  {
    var n := b as nat;
    BackAgain(b, n);
    SmallMod(n);
  }

  /** The schedule's first function: two rotations and a shift. */
  predicate IsSmall0(x: bv64, a: bv64, b: bv64, c: bv64, r: bv64) {
    Down(x, a, 1) && Down(x, b, 8) && Dropped(x, c, 7) && r == a ^ b ^ c
  }

  lemma {:induction false} Small0OnBits(x: bv64)
    ensures IsSmall0(x, Rotr(x, 1), Rotr(x, 8), Shr(x, 7), Small0Bits(x))
  {
    hide Down, Rotr, Dropped, Shr;
    Down1(x);
    Down8(x);
    Dropped7(x);
  }

  lemma {:induction false} Small0OnWords(n: nat)
    ensures var x := Low(n); IsSmall0(x, Rotr(x, 1), Rotr(x, 8), Shr(x, 7), Low(Small0(n)))
  {
    hide IsSmall0, Small0Bits, Low, Rotr, Shr;
    Small0OnBits(Low(n));
    LowAgain(Small0Bits(Low(n)));
  }

  /** Its second function. */
  predicate IsSmall1(x: bv64, a: bv64, b: bv64, c: bv64, r: bv64) {
    Down(x, a, 19) && Down(x, b, 61) && Dropped(x, c, 6) && r == a ^ b ^ c
  }

  lemma {:induction false} Small1OnBits(x: bv64)
    ensures IsSmall1(x, Rotr(x, 19), Rotr(x, 61), Shr(x, 6), Small1Bits(x))
  {
    hide Down, Rotr, Dropped, Shr;
    Down19(x);
    Down61(x);
    Dropped6(x);
  }

  lemma {:induction false} Small1OnWords(n: nat)
    ensures var x := Low(n); IsSmall1(x, Rotr(x, 19), Rotr(x, 61), Shr(x, 6), Low(Small1(n)))
  {
    hide IsSmall1, Small1Bits, Low, Rotr, Shr;
    Small1OnBits(Low(n));
    LowAgain(Small1Bits(Low(n)));
  }

  /** The rounds' first function: three rotations. */
  predicate IsBig0(x: bv64, a: bv64, b: bv64, c: bv64, r: bv64) {
    Down(x, a, 28) && Down(x, b, 34) && Down(x, c, 39) && r == a ^ b ^ c
  }

  lemma {:induction false} Big0OnBits(x: bv64)
    ensures IsBig0(x, Rotr(x, 28), Rotr(x, 34), Rotr(x, 39), Big0Bits(x))
  {
    hide Down, Rotr;
    Down28(x);
    Down34(x);
    Down39(x);
  }

  lemma {:induction false} Big0OnWords(n: nat)
    ensures var x := Low(n); IsBig0(x, Rotr(x, 28), Rotr(x, 34), Rotr(x, 39), Low(Big0(n)))
  {
    hide IsBig0, Big0Bits, Low, Rotr;
    Big0OnBits(Low(n));
    LowAgain(Big0Bits(Low(n)));
  }

  /** Its second function. */
  predicate IsBig1(x: bv64, a: bv64, b: bv64, c: bv64, r: bv64) {
    Down(x, a, 14) && Down(x, b, 18) && Down(x, c, 41) && r == a ^ b ^ c
  }

  lemma {:induction false} Big1OnBits(x: bv64)
    ensures IsBig1(x, Rotr(x, 14), Rotr(x, 18), Rotr(x, 41), Big1Bits(x))
  {
    hide Down, Rotr;
    Down14(x);
    Down18(x);
    Down41(x);
  }

  lemma {:induction false} Big1OnWords(n: nat)
    ensures var x := Low(n); IsBig1(x, Rotr(x, 14), Rotr(x, 18), Rotr(x, 41), Low(Big1(n)))
  {
    hide IsBig1, Big1Bits, Low, Rotr;
    Big1OnBits(Low(n));
    LowAgain(Big1Bits(Low(n)));
  }

  /** Place by place: where x is set the choice is y, elsewhere z. */
  predicate Chooses(x: bv64, y: bv64, z: bv64, f: bv64) {
    x & f == x & y && !x & f == !x & z
  }

  /** Where x and y agree the majority is what they agree on, elsewhere z. */
  predicate GoesWithMost(x: bv64, y: bv64, z: bv64, f: bv64) {
    !(x ^ y) & f == !(x ^ y) & x && (x ^ y) & f == (x ^ y) & z
  }

  lemma {:induction false} ChChooses(x: bv64, y: bv64, z: bv64)
    ensures Chooses(x, y, z, ChBits(x, y, z))
  {
    ChoiceOfBits(x, y, z, ChBits(x, y, z));
  }

  lemma {:induction false} ChoiceOfBits(x: bv64, y: bv64, z: bv64, f: bv64)
    requires f == (x & y) ^ (!x & z)
    ensures x & f == x & y && !x & f == !x & z
  {
  }

  lemma {:induction false} MajGoesWithMost(x: bv64, y: bv64, z: bv64)
    ensures GoesWithMost(x, y, z, MajBits(x, y, z))
  {
    MajorityOfBits(x, y, z, MajBits(x, y, z));
  }

  lemma {:induction false} MajorityOfBits(x: bv64, y: bv64, z: bv64, f: bv64)
    requires f == (x & y) ^ (x & z) ^ (y & z)
    ensures !(x ^ y) & f == !(x ^ y) & x && (x ^ y) & f == (x ^ y) & z
  {
  }

  lemma {:induction false} ChoiceOnWords(l: nat, m: nat, n: nat)
    ensures Chooses(Low(l), Low(m), Low(n), Low(Ch(l, m, n)))
    ensures GoesWithMost(Low(l), Low(m), Low(n), Low(Maj(l, m, n)))
  {
    hide Chooses, GoesWithMost, ChBits, MajBits, Low;
    var x, y, z := Low(l), Low(m), Low(n);
    ChChooses(x, y, z);
    MajGoesWithMost(x, y, z);
    LowAgain(ChBits(x, y, z));
    LowAgain(MajBits(x, y, z));
  }

  /** The operations that the standard's compression function is given are these. */
  lemma {:induction false} StandardOperations(l: nat, m: nat, n: nat)
    ensures var ops, x := StandardOps(), Low(n);
      && ops.rounds == 80 && ops.add(m, n) == (m + n) % 0x1_0000_0000_0000_0000 && ops.k(n) == K(n)
      && IsSmall0(x, Rotr(x, 1), Rotr(x, 8), Shr(x, 7), Low(ops.small0(n)))
      && IsSmall1(x, Rotr(x, 19), Rotr(x, 61), Shr(x, 6), Low(ops.small1(n)))
      && IsBig0(x, Rotr(x, 28), Rotr(x, 34), Rotr(x, 39), Low(ops.big0(n)))
      && IsBig1(x, Rotr(x, 14), Rotr(x, 18), Rotr(x, 41), Low(ops.big1(n)))
      && Chooses(Low(l), Low(m), x, Low(ops.ch(l, m, n)))
      && GoesWithMost(Low(l), Low(m), x, Low(ops.maj(l, m, n)))
  {
    hide IsSmall0, IsSmall1, IsBig0, IsBig1, Chooses, GoesWithMost, Low, Rotr, Shr;
    hide Small0, Small1, Big0, Big1, Ch, Maj, K;
    Small0OnWords(n);
    Small1OnWords(n);
    Big0OnWords(n);
    Big1OnWords(n);
    ChoiceOnWords(l, m, n);
  }

  // ---- every round can be undone ----

  const M: nat := 0x1_0000_0000_0000_0000

  function Sub(x: nat, y: nat): nat {
    (x - y) % M
  }

  predicate InRange(r: Registers) {
    && r.a < M && r.b < M && r.c < M && r.d < M && r.e < M && r.f < M && r.g < M && r.h < M
  }

  lemma {:induction false} AddSub(x: nat, y: nat)
    requires x < M
    ensures Sub(Add(x, y), y) == x && Sub(Add(y, x), y) == x
  {
    Wraps(x, y);
  }

  lemma {:induction false} Wraps(x: nat, y: nat)
    requires x < M
    ensures ((x + y) % M - y) % M == x
  {
    var q := (x + y) / M;
    assert (x + y) % M - y == x - q * M;
    assert (x - q * M) % M == x;
  }

  lemma {:induction false} AddInRange(x: nat, y: nat)
    ensures Add(x, y) < M
  {
  }

  /** The registers before a round, from those after it. */
  function Undone(r: Registers, x: nat, k: nat): Registers {
    var a, b, c, e, f, g := r.b, r.c, r.d, r.f, r.g, r.h;
    var t1 := Sub(r.a, Add(Big0(a), Maj(a, b, c)));
    Registers(a, b, c, Sub(r.e, t1), e, f, g, Sub(Sub(Sub(Sub(t1, x), k), Ch(e, f, g)), Big1(e)))
  }

  /** A round loses nothing: it is a permutation of the registers for every word. */
  lemma {:induction false} RoundUndone(r: Registers, x: nat, k: nat)
    requires InRange(r)
    ensures Undone(Round(StandardOps(), r, x, k), x, k) == r
  {
    hide Big0, Big1, Maj, Ch, Add, Sub;
    var s1, s2, s3 := Add(r.h, Big1(r.e)), Add(Add(r.h, Big1(r.e)), Ch(r.e, r.f, r.g)), 0;
    s3 := Add(s2, k);
    var t1, t2 := Add(s3, x), Add(Big0(r.a), Maj(r.a, r.b, r.c));
    AddInRange(r.h, Big1(r.e));
    AddInRange(s1, Ch(r.e, r.f, r.g));
    AddInRange(s2, k);
    AddInRange(s3, x);
    AddSub(t1, t2);
    AddSub(r.d, t1);
    AddSub(s3, x);
    AddSub(s2, k);
    AddSub(s1, Ch(r.e, r.f, r.g));
    AddSub(r.h, Big1(r.e));
  }

  /** The schedule can be run backwards: the word sixteen places back is what the other three
      do not account for. */
  lemma {:induction false} ScheduleUndone(m: Block, t: nat)
    requires t >= 16 && Schedule(StandardOps(), m, t - 16) < M
    ensures var w := i requires 0 <= i <= t => Schedule(StandardOps(), m, i);
      w(t - 16) == Sub(w(t), Add(Add(Small1(w(t - 2)), w(t - 7)), Small0(w(t - 15))))
  {
    hide Small0, Small1, Add, Sub;
    var ops := StandardOps();
    var y := Add(Add(Small1(Schedule(ops, m, t - 2)), Schedule(ops, m, t - 7)), Small0(Schedule(ops, m, t - 15)));
    AddSub(Schedule(ops, m, t - 16), y);
  }
}
