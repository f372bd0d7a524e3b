/** The SHA-2 compression functions: rounds that rotate the roles of eight array cells
    instead of moving the words, against the eight-variable shift of FIPS 180-4,
    sections 6.2.2 and 6.4.2. The word operations are a parameter; the two instances
    differ in width, in the sigma functions and in how long the schedule is. */
module Sha2 {

  type Word = nat

  datatype Ops = Ops(add: (Word, Word) -> Word, small0: Word -> Word, small1: Word -> Word,
                     big0: Word -> Word, big1: Word -> Word,
                     ch: (Word, Word, Word) -> Word, maj: (Word, Word, Word) -> Word,
                     k: nat -> Word, rounds: nat)

  /** Four entries of a table. */
  datatype Row = Row(a: nat, b: nat, c: nat, d: nat)

  function Pick(row: Row, j: nat): nat {
    if j == 0 then row.a else if j == 1 then row.b else if j == 2 then row.c else row.d
  }

  // ---- the standard's definition ----

  type Block = m: seq<Word> | |m| == 16 witness seq(16, _ => 0)

  type Hash = h: seq<Word> | |h| == 8 witness seq(8, _ => 0)

  /** Word t of the message schedule. */
  function Schedule(ops: Ops, m: Block, t: nat): Word {
    if t < 16 then m[t]
    else
      ops.add(ops.add(ops.add(ops.small1(Schedule(ops, m, t - 2)), Schedule(ops, m, t - 7)),
                      ops.small0(Schedule(ops, m, t - 15))),
              Schedule(ops, m, t - 16))
  }

  datatype Registers = Registers(a: Word, b: Word, c: Word, d: Word, e: Word, f: Word, g: Word, h: Word)

  function Sum1(ops: Ops, e: Word, f: Word, g: Word, h: Word, x: Word, k: Word): Word {
    ops.add(ops.add(ops.add(ops.add(h, ops.big1(e)), ops.ch(e, f, g)), k), x)
  }

  function Sum2(ops: Ops, a: Word, b: Word, c: Word): Word {
    ops.add(ops.big0(a), ops.maj(a, b, c))
  }

  function Round(ops: Ops, r: Registers, x: Word, k: Word): Registers {
    var t1, t2 := Sum1(ops, r.e, r.f, r.g, r.h, x, k), Sum2(ops, r.a, r.b, r.c);
    Registers(ops.add(t1, t2), r.a, r.b, r.c, ops.add(r.d, t1), r.e, r.f, r.g)
  }

  function Rounds(ops: Ops, r: Registers, m: Block, n: nat): Registers {
    if n == 0 then r else Round(ops, Rounds(ops, r, m, n - 1), Schedule(ops, m, n - 1), ops.k(n - 1))
  }

  function Load(h: Hash): Registers {
    Registers(h[0], h[1], h[2], h[3], h[4], h[5], h[6], h[7])
  }

  function Store(ops: Ops, h: Hash, r: Registers): Hash {
    [ops.add(h[0], r.a), ops.add(h[1], r.b), ops.add(h[2], r.c), ops.add(h[3], r.d),
     ops.add(h[4], r.e), ops.add(h[5], r.f), ops.add(h[6], r.g), ops.add(h[7], r.h)]
  }

  function Compress(ops: Ops, h: Hash, m: Block): Hash {
    Store(ops, h, Rounds(ops, Load(h), m, ops.rounds))
  }

  // ---- the source's rounds ----

  /** The cell i places after cell p, around the array. */
  function Cell(p: nat, i: nat): (c: nat)
    requires p < 8 && i < 8
    ensures c < 8
  {
    if p + i < 8 then p + i else p + i - 8
  }

  /** The registers, when cell p plays the part of a. */
  function View(s: seq<Word>, p: nat): Registers
    requires |s| == 8 && p < 8
  {
    Registers(s[Cell(p, 0)], s[Cell(p, 1)], s[Cell(p, 2)], s[Cell(p, 3)],
              s[Cell(p, 4)], s[Cell(p, 5)], s[Cell(p, 6)], s[Cell(p, 7)])
  }

  /** The round macro: only the cells of d and h are written, and the part of a passes
      to the cell of h. */
  method RotatedRound(ops: Ops, s: array<Word>, p: nat, x: Word, k: Word)
    requires s.Length == 8 && p < 8
    modifies s
    ensures View(s[..], Cell(p, 7)) == Round(ops, View(old(s[..]), p), x, k)
  {
    hide Sum1, Sum2;
    var sum1 := Sum1(ops, s[Cell(p, 4)], s[Cell(p, 5)], s[Cell(p, 6)], s[Cell(p, 7)], x, k);
    var sum2 := Sum2(ops, s[Cell(p, 0)], s[Cell(p, 1)], s[Cell(p, 2)]);
    s[Cell(p, 3)] := ops.add(s[Cell(p, 3)], sum1);
    s[Cell(p, 7)] := ops.add(sum1, sum2);
  }

  /** The first t words of the schedule are in place. */
  ghost predicate Scheduled(ops: Ops, w: seq<Word>, m: Block, t: nat) {
    t <= |w| && 16 <= |w| && forall j | 0 <= j < t || 0 <= j < 16 :: w[j] == Schedule(ops, m, j)
  }

  /** The word of round t: there already, or computed and kept. */
  method NextWord(ops: Ops, w: array<Word>, t: nat, ghost m: Block) returns (x: Word)
    requires 16 <= w.Length && t < w.Length && Scheduled(ops, w[..], m, t)
    modifies w
    ensures x == Schedule(ops, m, t) && Scheduled(ops, w[..], m, t + 1)
  {
    if t >= 16 {
      w[t] := ops.add(ops.add(ops.add(ops.small1(w[t - 2]), w[t - 7]), ops.small0(w[t - 15])), w[t - 16]);
    }
    x := w[t];
  }

  /** One round at rotation p, in the standard's terms. */
  method RoundWithWord(ops: Ops, s: array<Word>, w: array<Word>, p: nat, t: nat, ghost r0: Registers, ghost m: Block)
    requires s.Length == 8 && p < 8 && s != w && 16 <= w.Length && t < w.Length
    requires Scheduled(ops, w[..], m, t) && View(s[..], p) == Rounds(ops, r0, m, t)
    modifies s, w
    ensures Scheduled(ops, w[..], m, t + 1) && View(s[..], Cell(p, 7)) == Rounds(ops, r0, m, t + 1)
  {
    hide Round, Schedule, Scheduled, View;
    var x := NextWord(ops, w, t, m);
    RotatedRound(ops, s, p, x, ops.k(t));
  }

  /** Eight rounds, after which every cell plays its own part again. */
  method EightRounds(ops: Ops, s: array<Word>, w: array<Word>, t: nat, ghost r0: Registers, ghost m: Block)
    requires s.Length == 8 && s != w && 16 <= w.Length && t + 8 <= w.Length
    requires Scheduled(ops, w[..], m, t) && View(s[..], 0) == Rounds(ops, r0, m, t)
    modifies s, w
    ensures Scheduled(ops, w[..], m, t + 8) && View(s[..], 0) == Rounds(ops, r0, m, t + 8)
  {
    hide Rounds, Scheduled, View;
    RoundWithWord(ops, s, w, 0, t, r0, m);
    RoundWithWord(ops, s, w, 7, t + 1, r0, m);
    RoundWithWord(ops, s, w, 6, t + 2, r0, m);
    RoundWithWord(ops, s, w, 5, t + 3, r0, m);
    RoundWithWord(ops, s, w, 4, t + 4, r0, m);
    RoundWithWord(ops, s, w, 3, t + 5, r0, m);
    RoundWithWord(ops, s, w, 2, t + 6, r0, m);
    RoundWithWord(ops, s, w, 1, t + 7, r0, m);
  }

  /** The registers are added to the hash. */
  method AddBack(ops: Ops, hash: array<Word>, s: array<Word>)
    requires hash.Length == 8 && s.Length == 8 && hash != s
    modifies hash
    ensures hash[..] == Store(ops, old(hash[..]), View(s[..], 0))
  {
    for i := 0 to 8
      invariant forall j | 0 <= j < 8 :: hash[j] == if j < i then ops.add(old(hash[j]), s[j]) else old(hash[j])
    {
      hash[i] := ops.add(hash[i], s[i]);
    }
    assert hash[..] == Store(ops, old(hash[..]), View(s[..], 0));
  }

  /** The rounds on a copy of the hash, with a schedule filled in on the way. */
  method AllRounds(ops: Ops, s: array<Word>, data: Block)
    requires s.Length == 8 && ops.rounds % 8 == 0 && ops.rounds >= 16
    modifies s
    ensures View(s[..], 0) == Rounds(ops, View(old(s[..]), 0), data, ops.rounds)
  {
    hide Rounds, Schedule;
    var w := new Word[ops.rounds](i => if 0 <= i < 16 then data[i] else 0);
    ghost var r0 := View(s[..], 0);
    Starts(ops, w[..], r0, data);
    for g := 0 to ops.rounds / 8
      invariant Scheduled(ops, w[..], data, 8 * g) && View(s[..], 0) == Rounds(ops, r0, data, 8 * g)
    {
      hide Scheduled, View;
      EightRounds(ops, s, w, 8 * g, r0, data);
    }
  }

  method Process(ops: Ops, hash: array<Word>, data: Block)
    requires hash.Length == 8 && ops.rounds % 8 == 0 && ops.rounds >= 16
    modifies hash
    ensures hash[..] == Compress(ops, old(hash[..]), data)
  {
    hide Rounds, Schedule, Store;
    var s := new Word[8](i requires 0 <= i < 8 reads hash => hash[i]);
    assert View(s[..], 0) == Load(hash[..]);
    AllRounds(ops, s, data);
    AddBack(ops, hash, s);
  }

  lemma {:induction false} Starts(ops: Ops, w: seq<Word>, r: Registers, m: Block)
    requires 16 <= |w| && forall j | 0 <= j < 16 :: w[j] == m[j]
    ensures Scheduled(ops, w, m, 0) && Rounds(ops, r, m, 0) == r
  {
  }

  // ---- the schedule filled in first, as the 64-bit variant does ----

  method FillSchedule(ops: Ops, w: array<Word>, data: Block)
    requires w.Length >= 16
    modifies w
    ensures Scheduled(ops, w[..], data, w.Length)
  {
    hide Schedule;
    forall i | 0 <= i < 16 {
      w[i] := data[i];
    }
    Starts(ops, w[..], Load(seq(8, _ => 0)), data);
    for t := 0 to w.Length
      invariant Scheduled(ops, w[..], data, t)
    {
      hide Scheduled;
      var _ := NextWord(ops, w, t, data);
    }
  }

  method ReadyRound(ops: Ops, s: array<Word>, w: array<Word>, p: nat, t: nat, ghost r0: Registers, ghost m: Block)
    requires s.Length == 8 && p < 8 && s != w && t < w.Length && Scheduled(ops, w[..], m, w.Length)
    requires View(s[..], p) == Rounds(ops, r0, m, t)
    modifies s
    ensures View(s[..], Cell(p, 7)) == Rounds(ops, r0, m, t + 1)
  {
    hide Round, Schedule, View;
    assert w[..][t] == Schedule(ops, m, t);
    RotatedRound(ops, s, p, w[t], ops.k(t));
  }

  method EightReadyRounds(ops: Ops, s: array<Word>, w: array<Word>, t: nat, ghost r0: Registers, ghost m: Block)
    requires s.Length == 8 && s != w && t + 8 <= w.Length && Scheduled(ops, w[..], m, w.Length)
    requires View(s[..], 0) == Rounds(ops, r0, m, t)
    modifies s
    ensures View(s[..], 0) == Rounds(ops, r0, m, t + 8)
  {
    hide Rounds, Scheduled, View;
    ReadyRound(ops, s, w, 0, t, r0, m);
    ReadyRound(ops, s, w, 7, t + 1, r0, m);
    ReadyRound(ops, s, w, 6, t + 2, r0, m);
    ReadyRound(ops, s, w, 5, t + 3, r0, m);
    ReadyRound(ops, s, w, 4, t + 4, r0, m);
    ReadyRound(ops, s, w, 3, t + 5, r0, m);
    ReadyRound(ops, s, w, 2, t + 6, r0, m);
    ReadyRound(ops, s, w, 1, t + 7, r0, m);
  }

  method AllReadyRounds(ops: Ops, s: array<Word>, data: Block)
    requires s.Length == 8 && ops.rounds % 8 == 0 && ops.rounds >= 16
    modifies s
    ensures View(s[..], 0) == Rounds(ops, View(old(s[..]), 0), data, ops.rounds)
  {
    hide Rounds, Schedule, Scheduled;
    var w := new Word[ops.rounds];
    ghost var r0 := View(s[..], 0);
    FillSchedule(ops, w, data);
    NoRounds(ops, r0, data);
    for g := 0 to ops.rounds / 8
      invariant Scheduled(ops, w[..], data, w.Length) && View(s[..], 0) == Rounds(ops, r0, data, 8 * g)
    {
      hide View;
      EightReadyRounds(ops, s, w, 8 * g, r0, data);
    }
  }

  lemma {:induction false} NoRounds(ops: Ops, r: Registers, m: Block)
    ensures Rounds(ops, r, m, 0) == r
  {
  }

  method ProcessWide(ops: Ops, hash: array<Word>, data: Block)
    requires hash.Length == 8 && ops.rounds % 8 == 0 && ops.rounds >= 16
    modifies hash
    ensures hash[..] == Compress(ops, old(hash[..]), data)
  {
    hide Rounds, Schedule, Store;
    var s := new Word[8](i requires 0 <= i < 8 reads hash => hash[i]);
    assert View(s[..], 0) == Load(hash[..]);
    AllReadyRounds(ops, s, data);
    AddBack(ops, hash, s);
  }

  // ---- the choice and majority functions ----

  /** The two tables differ at most in how choice and majority are written. */
  ghost predicate SameOps(x: Ops, y: Ops) {
    && x.add == y.add && x.small0 == y.small0 && x.small1 == y.small1 && x.big0 == y.big0 && x.big1 == y.big1
    && x.k == y.k && x.rounds == y.rounds
    && (forall a, b, c :: x.ch(a, b, c) == y.ch(a, b, c))
    && (forall a, b, c :: x.maj(a, b, c) == y.maj(a, b, c))
  }

  lemma {:induction false} SameSchedule(x: Ops, y: Ops, m: Block, t: nat)
    requires SameOps(x, y)
    ensures Schedule(x, m, t) == Schedule(y, m, t)
  {
    if t >= 16 {
      SameSchedule(x, y, m, t - 2);
      SameSchedule(x, y, m, t - 7);
      SameSchedule(x, y, m, t - 15);
      SameSchedule(x, y, m, t - 16);
    }
  }

  lemma {:induction false} SameRound(x: Ops, y: Ops, r: Registers, w: Word, k: Word)
    requires SameOps(x, y)
    ensures Round(x, r, w, k) == Round(y, r, w, k)
  {
  }

  lemma {:induction false} SameRounds(x: Ops, y: Ops, r: Registers, m: Block, n: nat)
    requires SameOps(x, y)
    ensures Rounds(x, r, m, n) == Rounds(y, r, m, n)
  {
    hide Schedule, Round;
    if n > 0 {
      SameRounds(x, y, r, m, n - 1);
      SameSchedule(x, y, m, n - 1);
      SameRound(x, y, Rounds(x, r, m, n - 1), Schedule(x, m, n - 1), x.k(n - 1));
    }
  }

  lemma {:induction false} SameCompress(x: Ops, y: Ops, h: Hash, m: Block)
    requires SameOps(x, y)
    ensures Compress(x, h, m) == Compress(y, h, m)
  {
    hide Rounds;
    SameRounds(x, y, Load(h), m, x.rounds);
  }
}

/** SHA-256's word operations; the source writes majority and choice with fewer operations
    than the standard. */
module Sha256 {
  import opened Sha2

  function Low(x: nat): bv32 {
    (x % 0x1_0000_0000) as bv32
  }

  function Add(x: nat, y: nat): nat {
    (x + y) % 0x1_0000_0000
  }

  function Shr(x: bv32, n: nat): bv32
    requires n < 32
  {
    x >> n
  }

  function Rotr(x: bv32, n: nat): bv32
    requires 0 < n < 32
  {
    (x >> n) | (x << (32 - n))
  }

  function Small0Bits(x: bv32): bv32 {
    Rotr(x, 7) ^ Rotr(x, 18) ^ Shr(x, 3)
  }

  function Small0(x: nat): nat {
    Small0Bits(Low(x)) as nat
  }

  function Small1Bits(x: bv32): bv32 {
    Rotr(x, 17) ^ Rotr(x, 19) ^ Shr(x, 10)
  }

  function Small1(x: nat): nat {
    Small1Bits(Low(x)) as nat
  }

  function Big0Bits(x: bv32): bv32 {
    Rotr(x, 2) ^ Rotr(x, 13) ^ Rotr(x, 22)
  }

  function Big0(x: nat): nat {
    Big0Bits(Low(x)) as nat
  }

  function Big1Bits(x: bv32): bv32 {
    Rotr(x, 6) ^ Rotr(x, 11) ^ Rotr(x, 25)
  }

  function Big1(x: nat): nat {
    Big1Bits(Low(x)) as nat
  }

  function F0(x: bv32, y: bv32, z: bv32): bv32 {
    (x & y) | (z & (x | y))
  }

  function F1(x: bv32, y: bv32, z: bv32): bv32 {
    z ^ (x & (y ^ z))
  }

  function MajBits(x: bv32, y: bv32, z: bv32): bv32 {
    (x & y) ^ (x & z) ^ (y & z)
  }

  function ChBits(x: bv32, y: bv32, z: bv32): bv32 {
    (x & y) ^ (!x & z)
  }

  function CodeMaj(x: nat, y: nat, z: nat): nat {
    F0(Low(x), Low(y), Low(z)) as nat
  }

  function CodeCh(x: nat, y: nat, z: nat): nat {
    F1(Low(x), Low(y), Low(z)) as nat
  }

  function Maj(x: nat, y: nat, z: nat): nat {
    MajBits(Low(x), Low(y), Low(z)) as nat
  }

  function Ch(x: nat, y: nat, z: nat): nat {
    ChBits(Low(x), Low(y), Low(z)) as nat
  }

  const ROUND_CONSTANTS: seq<Row> := [
    Row(0x428A_2F98, 0x7137_4491, 0xB5C0_FBCF, 0xE9B5_DBA5),
    Row(0x3956_C25B, 0x59F1_11F1, 0x923F_82A4, 0xAB1C_5ED5),
    Row(0xD807_AA98, 0x1283_5B01, 0x2431_85BE, 0x550C_7DC3),
    Row(0x72BE_5D74, 0x80DE_B1FE, 0x9BDC_06A7, 0xC19B_F174),
    Row(0xE49B_69C1, 0xEFBE_4786, 0x0FC1_9DC6, 0x240C_A1CC),
    Row(0x2DE9_2C6F, 0x4A74_84AA, 0x5CB0_A9DC, 0x76F9_88DA),
    Row(0x983E_5152, 0xA831_C66D, 0xB003_27C8, 0xBF59_7FC7),
    Row(0xC6E0_0BF3, 0xD5A7_9147, 0x06CA_6351, 0x1429_2967),
    Row(0x27B7_0A85, 0x2E1B_2138, 0x4D2C_6DFC, 0x5338_0D13),
    Row(0x650A_7354, 0x766A_0ABB, 0x81C2_C92E, 0x9272_2C85),
    Row(0xA2BF_E8A1, 0xA81A_664B, 0xC24B_8B70, 0xC76C_51A3),
    Row(0xD192_E819, 0xD699_0624, 0xF40E_3585, 0x106A_A070),
    Row(0x19A4_C116, 0x1E37_6C08, 0x2748_774C, 0x34B0_BCB5),
    Row(0x391C_0CB3, 0x4ED8_AA4A, 0x5B9C_CA4F, 0x682E_6FF3),
    Row(0x748F_82EE, 0x78A5_636F, 0x84C8_7814, 0x8CC7_0208),
    Row(0x90BE_FFFA, 0xA450_6CEB, 0xBEF9_A3F7, 0xC671_78F2)
  ]

  function K(t: nat): nat {
    if t / 4 < |ROUND_CONSTANTS| then Pick(ROUND_CONSTANTS[t / 4], t % 4) else 0
  }

  function CodeOps(): Ops {
    Ops(Add, Small0, Small1, Big0, Big1, CodeCh, CodeMaj, K, 64)
  }

  function StandardOps(): Ops {
    Ops(Add, Small0, Small1, Big0, Big1, Ch, Maj, K, 64)
  }

  lemma {:induction false} F0IsMaj(x: bv32, y: bv32, z: bv32)
    ensures F0(x, y, z) == MajBits(x, y, z)
  {
    assert (x & y) | (z & (x | y)) == (x & y) ^ (x & z) ^ (y & z);
  }

  lemma {:induction false} F1IsCh(x: bv32, y: bv32, z: bv32)
    ensures F1(x, y, z) == ChBits(x, y, z)
  {
    assert z ^ (x & (y ^ z)) == (x & y) ^ (!x & z);
  }

  /** The source's compression function is the standard's, for every block and state. */
  method Process(hash: array<nat>, data: Block)
    requires hash.Length == 8
    modifies hash
    ensures hash[..] == Compress(StandardOps(), old(hash[..]), data)
  {
    ghost var h: Hash := hash[..];
    Sha2.Process(CodeOps(), hash, data);
    OpsAgree();
    SameCompress(CodeOps(), StandardOps(), h, data);
  }

  lemma {:induction false} OpsAgree()
    ensures SameOps(CodeOps(), StandardOps())
  {
    hide F0, F1, MajBits, ChBits, Low;
    forall a, b, c ensures CodeCh(a, b, c) == Ch(a, b, c) && CodeMaj(a, b, c) == Maj(a, b, c) {
      F1IsCh(Low(a), Low(b), Low(c));
      F0IsMaj(Low(a), Low(b), Low(c));
    }
  }
}

/** SHA-512's word operations, likewise. */
module Sha512 {
  import opened Sha2

  function Low(x: nat): bv64 {
    (x % 0x1_0000_0000_0000_0000) as bv64
  }

  function Add(x: nat, y: nat): nat {
    (x + y) % 0x1_0000_0000_0000_0000
  }

  function Shr(x: bv64, n: nat): bv64
    requires n < 64
  {
    x >> n
  }

  function Rotr(x: bv64, n: nat): bv64
    requires 0 < n < 64
  {
    (x >> n) | (x << (64 - n))
  }

  function Small0Bits(x: bv64): bv64 {
    Rotr(x, 1) ^ Rotr(x, 8) ^ Shr(x, 7)
  }

  function Small0(x: nat): nat {
    Small0Bits(Low(x)) as nat
  }

  function Small1Bits(x: bv64): bv64 {
    Rotr(x, 19) ^ Rotr(x, 61) ^ Shr(x, 6)
  }

  function Small1(x: nat): nat {
    Small1Bits(Low(x)) as nat
  }

  function Big0Bits(x: bv64): bv64 {
    Rotr(x, 28) ^ Rotr(x, 34) ^ Rotr(x, 39)
  }

  function Big0(x: nat): nat {
    Big0Bits(Low(x)) as nat
  }

  function Big1Bits(x: bv64): bv64 {
    Rotr(x, 14) ^ Rotr(x, 18) ^ Rotr(x, 41)
  }

  function Big1(x: nat): nat {
    Big1Bits(Low(x)) as nat
  }

  function F0(x: bv64, y: bv64, z: bv64): bv64 {
    (x & y) | (z & (x | y))
  }

  function F1(x: bv64, y: bv64, z: bv64): bv64 {
    z ^ (x & (y ^ z))
  }

  function MajBits(x: bv64, y: bv64, z: bv64): bv64 {
    (x & y) ^ (x & z) ^ (y & z)
  }

  function ChBits(x: bv64, y: bv64, z: bv64): bv64 {
    (x & y) ^ (!x & z)
  }

  function CodeMaj(x: nat, y: nat, z: nat): nat {
    F0(Low(x), Low(y), Low(z)) as nat
  }

  function CodeCh(x: nat, y: nat, z: nat): nat {
    F1(Low(x), Low(y), Low(z)) as nat
  }

  function Maj(x: nat, y: nat, z: nat): nat {
    MajBits(Low(x), Low(y), Low(z)) as nat
  }

  function Ch(x: nat, y: nat, z: nat): nat {
    ChBits(Low(x), Low(y), Low(z)) as nat
  }

  const ROUND_CONSTANTS: seq<Row> := [
    Row(0x428A_2F98_D728_AE22, 0x7137_4491_23EF_65CD, 0xB5C0_FBCF_EC4D_3B2F, 0xE9B5_DBA5_8189_DBBC),
    Row(0x3956_C25B_F348_B538, 0x59F1_11F1_B605_D019, 0x923F_82A4_AF19_4F9B, 0xAB1C_5ED5_DA6D_8118),
    Row(0xD807_AA98_A303_0242, 0x1283_5B01_4570_6FBE, 0x2431_85BE_4EE4_B28C, 0x550C_7DC3_D5FF_B4E2),
    Row(0x72BE_5D74_F27B_896F, 0x80DE_B1FE_3B16_96B1, 0x9BDC_06A7_25C7_1235, 0xC19B_F174_CF69_2694),
    Row(0xE49B_69C1_9EF1_4AD2, 0xEFBE_4786_384F_25E3, 0x0FC1_9DC6_8B8C_D5B5, 0x240C_A1CC_77AC_9C65),
    Row(0x2DE9_2C6F_592B_0275, 0x4A74_84AA_6EA6_E483, 0x5CB0_A9DC_BD41_FBD4, 0x76F9_88DA_8311_53B5),
    Row(0x983E_5152_EE66_DFAB, 0xA831_C66D_2DB4_3210, 0xB003_27C8_98FB_213F, 0xBF59_7FC7_BEEF_0EE4),
    Row(0xC6E0_0BF3_3DA8_8FC2, 0xD5A7_9147_930A_A725, 0x06CA_6351_E003_826F, 0x1429_2967_0A0E_6E70),
    Row(0x27B7_0A85_46D2_2FFC, 0x2E1B_2138_5C26_C926, 0x4D2C_6DFC_5AC4_2AED, 0x5338_0D13_9D95_B3DF),
    Row(0x650A_7354_8BAF_63DE, 0x766A_0ABB_3C77_B2A8, 0x81C2_C92E_47ED_AEE6, 0x9272_2C85_1482_353B),
    Row(0xA2BF_E8A1_4CF1_0364, 0xA81A_664B_BC42_3001, 0xC24B_8B70_D0F8_9791, 0xC76C_51A3_0654_BE30),
    Row(0xD192_E819_D6EF_5218, 0xD699_0624_5565_A910, 0xF40E_3585_5771_202A, 0x106A_A070_32BB_D1B8),
    Row(0x19A4_C116_B8D2_D0C8, 0x1E37_6C08_5141_AB53, 0x2748_774C_DF8E_EB99, 0x34B0_BCB5_E19B_48A8),
    Row(0x391C_0CB3_C5C9_5A63, 0x4ED8_AA4A_E341_8ACB, 0x5B9C_CA4F_7763_E373, 0x682E_6FF3_D6B2_B8A3),
    Row(0x748F_82EE_5DEF_B2FC, 0x78A5_636F_4317_2F60, 0x84C8_7814_A1F0_AB72, 0x8CC7_0208_1A64_39EC),
    Row(0x90BE_FFFA_2363_1E28, 0xA450_6CEB_DE82_BDE9, 0xBEF9_A3F7_B2C6_7915, 0xC671_78F2_E372_532B),
    Row(0xCA27_3ECE_EA26_619C, 0xD186_B8C7_21C0_C207, 0xEADA_7DD6_CDE0_EB1E, 0xF57D_4F7F_EE6E_D178),
    Row(0x06F0_67AA_7217_6FBA, 0x0A63_7DC5_A2C8_98A6, 0x113F_9804_BEF9_0DAE, 0x1B71_0B35_131C_471B),
    Row(0x28DB_77F5_2304_7D84, 0x32CA_AB7B_40C7_2493, 0x3C9E_BE0A_15C9_BEBC, 0x431D_67C4_9C10_0D4C),
    Row(0x4CC5_D4BE_CB3E_42B6, 0x597F_299C_FC65_7E2A, 0x5FCB_6FAB_3AD6_FAEC, 0x6C44_198C_4A47_5817)
  ]

  function K(t: nat): nat {
    if t / 4 < |ROUND_CONSTANTS| then Pick(ROUND_CONSTANTS[t / 4], t % 4) else 0
  }

  function CodeOps(): Ops {
    Ops(Add, Small0, Small1, Big0, Big1, CodeCh, CodeMaj, K, 80)
  }

  function StandardOps(): Ops {
    Ops(Add, Small0, Small1, Big0, Big1, Ch, Maj, K, 80)
  }

  lemma {:induction false} F0IsMaj(x: bv64, y: bv64, z: bv64)
    ensures F0(x, y, z) == MajBits(x, y, z)
  {
    assert (x & y) | (z & (x | y)) == (x & y) ^ (x & z) ^ (y & z);
  }

  lemma {:induction false} F1IsCh(x: bv64, y: bv64, z: bv64)
    ensures F1(x, y, z) == ChBits(x, y, z)
  {
    assert z ^ (x & (y ^ z)) == (x & y) ^ (!x & z);
  }

  /** The source's compression function is the standard's, for every block and state. */
  method Process(hash: array<nat>, data: Block)
    requires hash.Length == 8
    modifies hash
    ensures hash[..] == Compress(StandardOps(), old(hash[..]), data)
  {
    ghost var h: Hash := hash[..];
    ProcessWide(CodeOps(), hash, data);
    OpsAgree();
    SameCompress(CodeOps(), StandardOps(), h, data);
  }

  lemma {:induction false} OpsAgree()
    ensures SameOps(CodeOps(), StandardOps())
  {
    hide F0, F1, MajBits, ChBits, Low;
    forall a, b, c ensures CodeCh(a, b, c) == Ch(a, b, c) && CodeMaj(a, b, c) == Maj(a, b, c) {
      F1IsCh(Low(a), Low(b), Low(c));
      F0IsMaj(Low(a), Low(b), Low(c));
    }
  }
}
