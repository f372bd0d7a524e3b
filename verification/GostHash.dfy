/** GOST R 34.11-94 as a stream: 32-byte blocks, a 256-bit count of bits and a 256-bit
    control sum of the blocks. The step function is a parameter. */
module GostHash {
  import opened ByteType
  import opened Absorb
  import opened Words
  import opened GostSum

  /** Eight limbs. */
  type Block256 = s: seq<Limb> | |s| == 8 witness seq(8, _ => 0)

  type StepFunction = (Block256, Block256) -> Block256

  function Zero(): Block256 {
    seq(8, _ => 0)
  }

  /** What the block loop carries: the hash and the control sum. */
  datatype Chain = Chain(hash: Block256, sum: Block256)

  lemma {:induction false} WordsAreLimbs(bs: seq<byte>)
    ensures forall i | 0 <= i < |WordsOf(LittleEndian, 4, bs)| :: WordsOf(LittleEndian, 4, bs)[i] < W
    decreases |bs|
  {
    if |bs| >= 4 {
      WordsAreLimbs(bs[4..]);
      BytesBound(LittleEndian, bs[..4]);
      assert Pow256(1) == 256 && Pow256(2) == 0x1_0000 && Pow256(3) == 0x100_0000 && Pow256(4) == W;
    }
  }

  /** The limbs of a 32-byte block. */
  function LimbsOf(block: seq<byte>): Block256
    requires |block| == 32
  {
    WordsAreLimbs(block);
    WordsOf(LittleEndian, 4, block)
  }

  lemma {:induction false} PowersAgree(n: nat)
    ensures Pow(n) == Pow256(4 * n)
  {
    if n == 0 {
    } else {
      PowersAgree(n - 1);
      PowAdd(4, 4 * (n - 1));
      assert Pow256(1) == 256 && Pow256(2) == 0x1_0000 && Pow256(3) == 0x100_0000 && Pow256(4) == W;
    }
  }

  /** Limbs read from bytes in order make up the number that the bytes are, the least
      significant first. */
  lemma {:induction false} LimbsAreNumber(bs: seq<byte>, limbs: seq<Limb>, k: nat)
    requires |bs| == 4 * k && limbs == WordsOf(LittleEndian, 4, bs)
    ensures Number(limbs) == FromBytes(LittleEndian, bs)
    decreases k
  {
    hide FromBytes, WordsOf, Pow, Pow256;
    if k == 0 {
      NoBytes(bs);
    } else {
      var n := 4 * (k - 1);
      var front, last := bs[..n], bs[n..];
      assert front + last == bs;
      ModUnique(n, 4, k - 1, 0);
      WordsAppend(LittleEndian, 4, front, last);
      LastWord(last);
      assert limbs[..|limbs| - 1] == WordsOf(LittleEndian, 4, front);
      LimbsAreNumber(front, limbs[..|limbs| - 1], k - 1);
      PowersAgree(k - 1);
      LowThenHigh(front, last);
    }
  }

  lemma {:induction false} NoBytes(bs: seq<byte>)
    requires bs == []
    ensures WordsOf(LittleEndian, 4, bs) == [] && FromBytes(LittleEndian, bs) == 0
  {
  }

  lemma {:induction false} LastWord(last: seq<byte>)
    requires |last| == 4
    ensures WordsOf(LittleEndian, 4, last) == [FromBytes(LittleEndian, last)]
  {
    hide FromBytes;
    assert last[..4] == last && last[4..] == [];
  }

  lemma {:induction false} LowThenHigh(low: seq<byte>, high: seq<byte>)
    ensures FromBytes(LittleEndian, low + high) ==
      FromBytes(LittleEndian, low) + FromBytes(LittleEndian, high) * Pow256(|low|)
  {
    if low == [] {
      assert low + high == high && Pow256(0) == 1;
    } else {
      LowThenHigh(low[1..], high);
      assert (low + high)[1..] == low[1..] + high;
      var p, x := Pow256(|low| - 1), FromBytes(LittleEndian, high);
      Associate(x, p, 256);
    }
  }

  /** A block is the number that its bytes are, the least significant first. */
  lemma {:induction false} BlockIsNumber(block: seq<byte>)
    requires |block| == 32
    ensures Number(LimbsOf(block)) == FromBytes(LittleEndian, block)
  {
    LimbsAreNumber(block, LimbsOf(block), 8);
  }

  /** One block: the step function, and the source's sum. */
  function Process(step: StepFunction): (Chain, seq<byte>) -> Chain {
    (c: Chain, block: seq<byte>) =>
      if |block| == 32 then
        Chain(step(c.hash, LimbsOf(block)), Add(c.sum, LimbsOf(block), 8, false).limbs)
      else c
  }

  /** The words that the host has to swap: the hash is little-endian. */
  function SwapSize(host: Order): nat {
    if host.LittleEndian? then 0 else 4
  }

  const START: Chain := Chain(Zero(), Zero())

  // ---- the bit count ----

  /** A chunk's length in bits, as the source spreads it over two limbs. */
  function LengthLimbs(len: nat): Block256 {
    [8 * len % W, len / 0x2000_0000 % W, 0, 0, 0, 0, 0, 0]
  }

  lemma {:induction false} ZeroLimbs(s: seq<Limb>, k: nat)
    requires k <= |s| && forall i | k <= i < |s| :: s[i] == 0
    ensures Number(s) == Number(s[..k])
  {
    if k < |s| {
      ZeroLimbs(s[..|s| - 1], k);
      assert s[..|s| - 1][..k] == s[..k];
    } else {
      assert s[..k] == s;
    }
  }

  /** The two limbs hold the number of bits modulo 2^64. */
  lemma {:induction false} LengthLimbsCount(len: nat)
    ensures Number(LengthLimbs(len)) + len / 0x2000_0000_0000_0000 * Pow(2) == 8 * len
  {
    var s := LengthLimbs(len);
    ZeroLimbs(s, 2);
    TwoLimbs(s[..2]);
    SpreadLength(len);
    assert Pow(0) == 1 && Pow(1) == W && Pow(2) == W * W;
  }

  lemma {:induction false} TwoLimbs(s: seq<Limb>)
    requires |s| == 2
    ensures Number(s) == s[0] + s[1] * W
  {
    assert s[..1][..0] == [] && Pow(0) == 1 && Pow(1) == W;
    assert Number(s[..1]) == s[0];
  }

  lemma {:induction false} SpreadLength(len: nat)
    ensures 8 * len == 8 * len % W + len / 0x2000_0000 % W * W + len / 0x2000_0000_0000_0000 * (W * W)
  {
    var q := len / 0x2000_0000;
    ModUnique(8 * len, W, q, 8 * (len % 0x2000_0000));
    ModUnique(len, 0x2000_0000_0000_0000, q / W, q % W * 0x2000_0000 + len % 0x2000_0000);
  }

  /** The length's limbs can lose a carry in one place only. */
  lemma {:induction false} OnlySecondLoses(count: Block256, len: nat)
    ensures AddsRight(count, LengthLimbs(len)) <==> !Loses(count, LengthLimbs(len), 1)
  {
    var limbs := LengthLimbs(len);
    forall i | 0 <= i < 7 && i != 1 ensures !Loses(count, limbs, i) {
      if i == 0 {
        assert Number(count[..0]) == 0 && Number(limbs[..0]) == 0 && Pow(0) == 1;
      }
    }
  }

  lemma {:induction false} FewExtras(lost: nat, dropped: nat)
    requires lost <= 2 * Pow(7) && dropped < 8
    ensures lost + dropped * Pow(2) < Pow(8)
  {
    PowStep(2);
    PowStep(3);
    PowStep(4);
    PowStep(5);
    PowStep(6);
    PowStep(7);
  }

  /** For any length of the size type: the count of bits stays true, exactly when the
      length has fewer than 2^64 bits and the second limb does not lose a carry. */
  lemma {:induction false} CountStaysTrueIff(count: Block256, len: nat)
    requires len < 0x1_0000_0000_0000_0000
    ensures Number(Add(count, LengthLimbs(len), 8, false).limbs) == (Number(count) + 8 * len) % Pow(8)
      <==> len < 0x2000_0000_0000_0000 && !Loses(count, LengthLimbs(len), 1)
  {
    hide Number, Pow, Loses, Add, LengthLimbs, Lost;
    var limbs, dropped := LengthLimbs(len), len / 0x2000_0000_0000_0000;
    var x, lost := Number(Add(count, limbs, 8, false).limbs), Lost(count, limbs, 7);
    LengthLimbsCount(len);
    OnlySecondLoses(count, len);
    NothingLostIff(count, limbs, 8);
    SumUpToLoss(count, limbs, 8);
    LostBound(count, limbs, 7);
    FewExtras(lost, dropped);
    NumberBound(Add(count, limbs, 8, false).limbs);
    assert dropped == 0 <==> len < 0x2000_0000_0000_0000;
    Extras(x, lost, dropped * Pow(2), Number(count) + Number(limbs), Pow(8));
    assert dropped * Pow(2) == 0 <==> dropped == 0;
  }

  lemma {:induction false} Extras(x: nat, lost: nat, dropped: nat, sum: nat, m: nat)
    requires m > 0 && x < m && (x + lost) % m == sum % m && lost + dropped < m
    ensures x == (sum + dropped) % m <==> lost == 0 && dropped == 0
  {
    SumMod(x + lost, dropped, m);
    SumMod(sum, dropped, m);
    SmallMod(lost + dropped, m);
    SameIffLostMultiple(x, lost + dropped, m);
  }

  /** A chunk far below 2^61 bytes never meets the case that loses a carry. */
  lemma {:induction false} CountStaysTrue(count: Block256, len: nat)
    requires len < 0x1FFF_FFFF_E000_0000
    ensures Number(Add(count, LengthLimbs(len), 8, false).limbs) == (Number(count) + 8 * len) % Pow(8)
  {
    hide Add, Number, Pow;
    CountStaysTrueIff(count, len);
    SmallMod(len / 0x2000_0000, W);
  }

  // ---- the control sum ----

  /** The sum of the blocks modulo 2^256, as the standard has it. */
  ghost function TrueSum(blocks: seq<Block256>): nat {
    if blocks == [] then 0 else (TrueSum(blocks[..|blocks| - 1]) + Number(blocks[|blocks| - 1])) % Pow(8)
  }

  /** The source's running sum. */
  function CodeSum(blocks: seq<Block256>): Block256 {
    if blocks == [] then Zero() else Add(CodeSum(blocks[..|blocks| - 1]), blocks[|blocks| - 1], 8, false).limbs
  }

  /** No limb below the top loses its carry. */
  ghost predicate AddsRight(a: Block256, b: Block256) {
    forall i | 0 <= i < 7 :: !Loses(a, b, i)
  }

  /** No addition on the way loses a carry. */
  ghost predicate Lossless(blocks: seq<Block256>) {
    blocks != [] ==>
      && Lossless(blocks[..|blocks| - 1])
      && AddsRight(CodeSum(blocks[..|blocks| - 1]), blocks[|blocks| - 1])
  }

  lemma {:induction false} LosslessSumIsTrue(blocks: seq<Block256>)
    requires Lossless(blocks)
    ensures Number(CodeSum(blocks)) == TrueSum(blocks)
  {
    if blocks == [] {
      ZeroLimbs(Zero(), 0);
    } else {
      var n := |blocks| - 1;
      LosslessSumIsTrue(blocks[..n]);
      SumIsExactIff(CodeSum(blocks[..n]), blocks[n], 8);
    }
  }

  /** Everything that the running sum has lost. */
  ghost function TotalLost(blocks: seq<Block256>): nat {
    if blocks == [] then 0
    else
      var n := |blocks| - 1;
      TotalLost(blocks[..n]) + Lost(CodeSum(blocks[..n]), blocks[n], 7)
  }

  function Mod(x: nat, m: nat): nat
    requires m > 0
  {
    x % m
  }

  lemma {:induction false} ModOfSum(x: nat, y: nat, m: nat)
    requires m > 0
    ensures Mod(x + y, m) == Mod(Mod(x, m) + y, m)
  {
    SumMod(x, y, m);
  }

  lemma {:induction false} Exchange(c: nat, lost: nat, c': nat, x: nat, total: nat, m: nat)
    requires m > 0 && Mod(c + lost, m) == Mod(c' + x, m)
    ensures Mod(c + (total + lost), m) == Mod(Mod(c' + total, m) + x, m)
  {
    hide Mod;
    ModOfSum(c + lost, total, m);
    ModOfSum(c' + x, total, m);
    ModOfSum(c' + total, x, m);
    assert c + lost + total == c + (total + lost) && c' + x + total == c' + total + x;
  }

  /** The source's running sum is the standard's sum, less what was lost. */
  lemma {:induction false} SumLessLost(blocks: seq<Block256>)
    ensures (Number(CodeSum(blocks)) + TotalLost(blocks)) % Pow(8) == TrueSum(blocks)
  {
    hide Number, Pow, Add, Lost;
    if blocks == [] {
      ZeroIsNone();
      SmallMod(0, Pow(8));
    } else {
      var n := |blocks| - 1;
      var front, x := blocks[..n], blocks[n];
      SumLessLost(front);
      SumUpToLoss(CodeSum(front), x, 8);
      Exchange(Number(CodeSum(blocks)), Lost(CodeSum(front), x, 7), Number(CodeSum(front)), Number(x),
               TotalLost(front), Pow(8));
    }
  }

  lemma {:induction false} ZeroIsNone()
    ensures Number(Zero()) == 0
  {
    ZeroLimbs(Zero(), 0);
  }

  lemma {:induction false} TotalLostBound(blocks: seq<Block256>)
    ensures TotalLost(blocks) <= |blocks| * (2 * Pow(7))
  {
    hide Pow, Lost;
    if blocks == [] {
    } else {
      var n := |blocks| - 1;
      TotalLostBound(blocks[..n]);
      LostBound(CodeSum(blocks[..n]), blocks[n], 7);
      Distribute(n, 1, 2 * Pow(7));
    }
  }

  lemma {:induction false} LosslessLosesNothing(blocks: seq<Block256>)
    ensures Lossless(blocks) <==> TotalLost(blocks) == 0
  {
    hide Number, Pow, Loses, Lost;
    if blocks == [] {
    } else {
      var n := |blocks| - 1;
      LosslessLosesNothing(blocks[..n]);
      NothingLostIff(CodeSum(blocks[..n]), blocks[n], 8);
    }
  }

  lemma {:induction false} SameIffLostMultiple(x: nat, lost: nat, m: nat)
    requires 0 < m && x < m
    ensures (x + lost) % m == x <==> lost % m == 0
  {
    var r := lost % m;
    SumMod(lost, x, m);
    SmallMod(x, m);
    if r > 0 {
      Shifted(x, r, m);
    }
  }

  /** The control sum is the standard's exactly when what was lost is a multiple of
      2^256; below 2^31 blocks losses cannot add up to that, so exactly when no addition
      lost a carry. */
  lemma {:induction false} ControlSumIsTrueIff(blocks: seq<Block256>)
    ensures Number(CodeSum(blocks)) == TrueSum(blocks) <==> TotalLost(blocks) % Pow(8) == 0
    ensures |blocks| < 0x8000_0000 ==> (Number(CodeSum(blocks)) == TrueSum(blocks) <==> Lossless(blocks))
  {
    hide Number, Pow, Lossless, TotalLost, TrueSum, CodeSum;
    var x, lost := Number(CodeSum(blocks)), TotalLost(blocks);
    SumLessLost(blocks);
    NumberBound(CodeSum(blocks));
    SameIffLostMultiple(x, lost, Pow(8));
    if |blocks| < 0x8000_0000 {
      LosslessLosesNothing(blocks);
      TotalLostBound(blocks);
      PowStep(7);
      FewLosses(|blocks|, Pow(7));
      SmallMod(lost, Pow(8));
    }
  }

  lemma {:induction false} FewLosses(n: nat, p: nat)
    requires n < 0x8000_0000 && p > 0
    ensures n * (2 * p) < W * p
  {
    Associate(n, 2, p);
    Distribute(2 * n, W - 2 * n, p);
    assert (W - 2 * n) * p > 0;
  }

  /** The limbs of the blocks of a message. */
  function BlockList(msg: seq<byte>): seq<Block256>
    requires |msg| % 32 == 0
  {
    if msg == [] then [] else BlockList(msg[..|msg| - 32]) + [LimbsOf(msg[|msg| - 32..])]
  }

  /** The control sum that the hash ends with is the source's running sum. */
  lemma {:induction false} ControlSum(step: StepFunction, msg: seq<byte>)
    requires |msg| % 32 == 0
    ensures Blocks(Process(step), 32, START, msg).sum == CodeSum(BlockList(msg))
  {
    if msg != [] {
      var n := |msg| - 32;
      var front, block := msg[..n], msg[n..];
      ControlSum(step, front);
      assert front + block == msg;
      BlocksSplit(Process(step), 32, START, front, block);
      var c := Blocks(Process(step), 32, START, front);
      OneBlock(step, c, Rest(32, front) + block, block);
      assert BlockList(msg)[..|BlockList(msg)| - 1] == BlockList(front);
    }
  }

  lemma {:induction false} OneBlock(step: StepFunction, c: Chain, todo: seq<byte>, block: seq<byte>)
    requires |todo| == |block| == 32 && todo == [] + block
    ensures Blocks(Process(step), 32, c, todo) == Process(step)(c, block)
  {
    assert todo == block && todo[..32] == block && todo[32..] == [];
  }

  function OnesMessage(): seq<byte> {
    seq(64, _ => 255)
  }

  lemma {:induction false} OnesWords(k: nat, bs: seq<byte>)
    requires bs == seq(4 * k, _ => 255)
    ensures WordsOf(LittleEndian, 4, bs) == seq(k, _ => W - 1)
    decreases k
  {
    if k > 0 {
      OnesWords(k - 1, bs[4..]);
      var b := bs[..4];
      assert b[1..][1..] == b[2..] && b[2..][1..] == b[3..] && b[3..][1..] == [];
      assert FromBytes(LittleEndian, b[3..]) == 255;
      assert FromBytes(LittleEndian, b[2..]) == 0xFFFF;
      assert FromBytes(LittleEndian, b[1..]) == 0xFF_FFFF;
    }
  }

  lemma {:induction false} OnesBlocks()
    ensures BlockList(OnesMessage()) == [Ones()] + [Ones()]
  {
    var msg := OnesMessage();
    OnesWords(8, msg[32..]);
    OnesWords(8, msg[..32]);
    assert msg[..32][..0] == [] && msg[..32][0..] == msg[..32];
    assert BlockList(msg[..32]) == [] + [Ones()];
  }

  lemma {:induction false} FirstOnes()
    ensures Lossless([Ones()]) && CodeSum([Ones()]) == Ones()
  {
    hide Number, Pow;
    assert [Ones()][..0] == [];
    assert Lossless([Ones()]);
    LosslessSumIsTrue([Ones()]);
    NumberBound(Ones());
    SmallMod(Number(Ones()), Pow(8));
    NumberInjective(CodeSum([Ones()]), Ones());
  }

  /** Sixty-four bytes of all ones already have a wrong control sum. */
  lemma {:induction false} OnesMessageHasWrongSum(step: StepFunction)
    ensures Number(Blocks(Process(step), 32, START, OnesMessage()).sum) != TrueSum(BlockList(OnesMessage()))
  {
    hide Number, Pow, Loses, Ones, Process, Blocks, BlockList, CodeSum, TrueSum, TotalLost;
    var blocks := [Ones()] + [Ones()];
    OnesBlocks();
    FirstOnes();
    OnesLose();
    assert blocks[..1] == [Ones()];
    ControlSumIsTrueIff(blocks);
    ControlSum(step, OnesMessage());
  }

  // ---- the hash of a whole message ----

  /** Zeros to the end of the last block; nothing after a whole block. */
  function ZeroFill(n: nat): seq<byte> {
    Zeros((32 - n % 32) % 32)
  }

  /** The number of bits, modulo 2^256, in limbs. */
  ghost predicate IsBitCount(count: Block256, n: nat) {
    Number(count) == 8 * n % Pow(8)
  }

  /** The blocks of the zero-filled message, then the number of bits and the control sum. */
  ghost function OneShot(step: StepFunction, msg: seq<byte>): Block256 {
    var c := Blocks(Process(step), 32, START, msg + ZeroFill(|msg|));
    step(step(c.hash, LimbsOfNumber(8 * |msg|, 8)), c.sum)
  }

  /** The same with any limbs as the number of bits: what the source gives when it has
      taken in the bytes and counted so. */
  ghost function Closed(step: StepFunction, taken: seq<byte>, count: Block256): Block256 {
    var c := Blocks(Process(step), 32, START, taken + ZeroFill(|taken|));
    step(step(c.hash, count), c.sum)
  }

  /** The count holds the limbs of the number of bits. */
  lemma {:induction false} CountIsLimbs(count: Block256, n: nat)
    requires IsBitCount(count, n)
    ensures count == LimbsOfNumber(8 * n, 8)
  {
    LimbsRoundTrip(8 * n, 8);
    NumberInjective(count, LimbsOfNumber(8 * n, 8));
  }

  // ---- the standard's hash ----

  /** The step function alone, over the blocks. */
  function StepOn(step: StepFunction, h: Block256, block: seq<byte>): Block256 {
    if |block| == 32 then step(h, LimbsOf(block)) else h
  }

  function Stepped(step: StepFunction): (Block256, seq<byte>) -> Block256 {
    (h, block) => StepOn(step, h, block)
  }

  lemma {:induction false} HashIgnoresSum(step: StepFunction, c: Chain, msg: seq<byte>)
    ensures Blocks(Process(step), 32, c, msg).hash == Blocks(Stepped(step), 32, c.hash, msg)
    decreases |msg|
  {
    hide LimbsOf, Add;
    if |msg| < 32 {
    } else {
      HashIgnoresSum(step, Process(step)(c, msg[..32]), msg[32..]);
    }
  }

  lemma {:induction false} FilledIsWhole(n: nat)
    ensures (n + |ZeroFill(n)|) % 32 == 0
  {
  }

  /** The blocks of the zero-filled message. */
  function FilledBlocks(msg: seq<byte>): seq<Block256> {
    FilledIsWhole(|msg|);
    BlockList(msg + ZeroFill(|msg|))
  }

  /** The standard's hash: the step function over the blocks, then the number of bits, then
      the sum of the blocks modulo 2^256. */
  ghost function Standard(step: StepFunction, msg: seq<byte>): Block256 {
    var h := Blocks(Stepped(step), 32, Zero(), msg + ZeroFill(|msg|));
    step(step(h, LimbsOfNumber(8 * |msg|, 8)), LimbsOfNumber(TrueSum(FilledBlocks(msg)), 8))
  }

  /** The two hashes differ in the last argument of the last step only. */
  lemma {:induction false} OneShotIs(step: StepFunction, msg: seq<byte>)
    ensures OneShot(step, msg) ==
      step(step(Blocks(Stepped(step), 32, Zero(), msg + ZeroFill(|msg|)), LimbsOfNumber(8 * |msg|, 8)),
           CodeSum(FilledBlocks(msg)))
  {
    hide Blocks, Stepped, LimbsOfNumber, CodeSum, ZeroFill;
    FilledIsWhole(|msg|);
    HashIgnoresSum(step, START, msg + ZeroFill(|msg|));
    ControlSum(step, msg + ZeroFill(|msg|));
  }

  lemma {:induction false} TrueSumBound(blocks: seq<Block256>)
    ensures TrueSum(blocks) < Pow(8)
  {
    hide Number, Pow;
  }

  lemma {:induction false} SameSumIff(blocks: seq<Block256>)
    ensures CodeSum(blocks) == LimbsOfNumber(TrueSum(blocks), 8) <==> Number(CodeSum(blocks)) == TrueSum(blocks)
  {
    hide Number, Pow, LimbsOfNumber, CodeSum, TrueSum;
    var limbs := LimbsOfNumber(TrueSum(blocks), 8);
    TrueSumBound(blocks);
    LimbsRoundTrip(TrueSum(blocks), 8);
    SmallMod(TrueSum(blocks), Pow(8));
    if Number(CodeSum(blocks)) == Number(limbs) {
      NumberInjective(CodeSum(blocks), limbs);
    }
  }

  /** The source hashes as the standard does, whatever the step function is, exactly when
      what the control sum lost is a multiple of 2^256; for messages below 2^36 bytes,
      exactly when no addition of a block lost a carry. */
  lemma {:induction false} HashIsStandardIff(msg: seq<byte>)
    ensures (forall step: StepFunction :: OneShot(step, msg) == Standard(step, msg))
      <==> TotalLost(FilledBlocks(msg)) % Pow(8) == 0
    ensures |msg| + 32 < 0x10_0000_0000 ==>
      ((forall step: StepFunction :: OneShot(step, msg) == Standard(step, msg)) <==> Lossless(FilledBlocks(msg)))
  {
    hide Number, Pow, LimbsOfNumber, CodeSum, TrueSum, TotalLost, Lossless, FilledBlocks, Blocks, OneShot;
    var blocks := FilledBlocks(msg);
    SameSumIff(blocks);
    ControlSumIsTrueIff(blocks);
    FilledLength(msg);
    if CodeSum(blocks) == LimbsOfNumber(TrueSum(blocks), 8) {
      forall step: StepFunction ensures OneShot(step, msg) == Standard(step, msg) {
        OneShotIs(step, msg);
      }
    } else {
      var last: StepFunction := (h, m) => m;
      OneShotIs(last, msg);
      assert OneShot(last, msg) != Standard(last, msg);
    }
  }

  /** Without a loss the source's hash is the standard's, however long the message. */
  lemma {:induction false} LosslessHash(step: StepFunction, msg: seq<byte>)
    ensures Lossless(FilledBlocks(msg)) ==> OneShot(step, msg) == Standard(step, msg)
  {
    hide Number, Pow, LimbsOfNumber, CodeSum, TrueSum, Lossless, FilledBlocks, Blocks, OneShot;
    if Lossless(FilledBlocks(msg)) {
      LosslessSumIsTrue(FilledBlocks(msg));
      SameSumIff(FilledBlocks(msg));
      OneShotIs(step, msg);
    }
  }

  lemma {:induction false} BlockListLength(msg: seq<byte>)
    requires |msg| % 32 == 0
    ensures 32 * |BlockList(msg)| == |msg|
  {
    hide LimbsOf;
    if msg == [] {
    } else {
      BlockListLength(msg[..|msg| - 32]);
    }
  }

  lemma {:induction false} FilledLength(msg: seq<byte>)
    ensures 32 * |FilledBlocks(msg)| < |msg| + 32
  {
    FilledIsWhole(|msg|);
    BlockListLength(msg + ZeroFill(|msg|));
  }

  // ---- the context ----

  class Context {
    const step: StepFunction
    const host: Order
    const buf: array<byte>
    const count: array<Limb>
    var chain: Chain

    /** The context has taken in these bytes, and the count knows their position. */
    ghost predicate Holds(taken: seq<byte>)
      reads this, buf, count
    {
      && buf.Length == 32 && count.Length == 8
      && count[0] % 256 / 8 == Left(32, |taken|)
      && buf[..Left(32, |taken|)] == Rest(32, taken)
      && chain == Blocks(Process(step), 32, START, taken)
    }

    /** The context has absorbed msg. */
    ghost predicate Absorbed(msg: seq<byte>)
      reads this, buf, count
    {
      Holds(msg) && IsBitCount(count[..], |msg|)
    }

    constructor (step: StepFunction, host: Order)
      ensures Absorbed([]) && count[..] == Zero() && fresh(buf) && fresh(count)
      ensures this.step == step && this.host == host
    {
      this.step := step;
      this.host := host;
      buf := new byte[32](_ => 0);
      count := new Limb[8](_ => 0);
      chain := START;
      new;
      ZeroLimbs(count[..], 0);
    }

    method Reset()
      requires buf.Length == 32 && count.Length == 8
      modifies this, buf, count
      ensures Absorbed([]) && count[..] == Zero()
    {
      forall i | 0 <= i < 32 {
        buf[i] := 0;
      }
      forall i | 0 <= i < 8 {
        count[i] := 0;
      }
      chain := START;
      ZeroLimbs(count[..], 0);
    }

    method Update(data: seq<byte>, ghost taken: seq<byte>)
      requires Holds(taken)
      modifies this, buf, count
      ensures Holds(Take(32, 0x1_0000_0000, SwapSize(host), taken, data))
      ensures count[..] == Add(old(count[..]), LengthLimbs(|data|), 8, false).limbs
      ensures old(IsBitCount(count[..], |taken|)) && |data| < 0x1_0000_0000 ==> Absorbed(taken + data)
    {
      hide Number, Pow, Add, Blocks, Rest, Process, Take, FillTestIsRight, LengthLimbs, IsBitCount;
      var left := count[0] % 256 / 8;
      Position(count[..], |taken|, |data|);
      ShortChunk(count[..], SwapSize(host), taken, data);
      Sum256(count, LengthLimbs(|data|));
      chain := Absorb.Update(Process(step), 32, 0x1_0000_0000, SwapSize(host), buf, left, chain, data, START, taken);
    }

    method Finish(ghost taken: seq<byte>)
      requires Holds(taken)
      modifies this, buf, count
      ensures chain.hash == Closed(step, taken, old(count[..]))
      ensures old(IsBitCount(count[..], |taken|)) ==> chain.hash == OneShot(step, taken)
    {
      hide Number, Pow, Add, WordsOf, Blocks, Rest, Process, IsBitCount, LimbsOfNumber;
      ghost var counted := count[..];
      if IsBitCount(counted, |taken|) {
        CountIsLimbs(counted, |taken|);
      }
      var left := count[0] % 256 / 8;
      var last := 32 - left;
      ghost var fill := ZeroFill(|taken|);
      BlocksSplit(Process(step), 32, START, taken, fill);
      if last % 32 != 0 {
        Copy(buf, left, Zeros(last));
        BlocksFill(Process(step), 32, chain, Rest(32, taken), fill);
        assert fill[..last] == fill;
        assert buf[..32] == Rest(32, taken) + fill;
        chain := Process(step)(chain, buf[..32]);
        NoBlocks(step, chain, fill[last..]);
      } else {
        NoBlocks(step, chain, Rest(32, taken) + fill);
      }
      chain := chain.(hash := step(chain.hash, count[..]));
      chain := chain.(hash := step(chain.hash, chain.sum));
    }
  }

  /** The low byte of the bit count gives the position in the block, whatever else the
      count has lost. */
  lemma {:induction false} Position(count: Block256, n: nat, len: nat)
    requires count[0] % 256 / 8 == Left(32, n)
    ensures Add(count, LengthLimbs(len), 8, false).limbs[0] % 256 / 8 == Left(32, n + len)
  {
    LimbsStay(count, LengthLimbs(len), 0, 8, false);
    LowByte(count[0], n, len);
  }

  lemma {:induction false} LowByte(x: Limb, n: nat, len: nat)
    requires x % 256 / 8 == n % 32
    ensures (x + 8 * len % W) % W % 256 / 8 == (n + len) % 32
  {
    var u, v, w := x / 256, n % 32, x % 8;
    var p, m := len / 0x2000_0000, len % 0x2000_0000;
    var t, z := (v + m) / 32, (v + m) % 32;
    ModUnique(8 * len, W, p, 8 * m);
    var y := (x + 8 * m) % W;
    var q := (x + 8 * m) / W;
    assert x == 256 * u + 8 * v + w;
    ModUnique(y, 256, u + t - q * 0x100_0000, 8 * z + w);
    ModUnique(n + len, 32, n / 32 + t + p * 0x100_0000, z);
  }

  lemma {:induction false} ShortChunk(count: Block256, word: nat, taken: seq<byte>, data: seq<byte>)
    ensures |data| < 0x1_0000_0000 ==> Take(32, 0x1_0000_0000, word, taken, data) == taken + data
    ensures IsBitCount(count, |taken|) && |data| < 0x1_0000_0000 ==>
      IsBitCount(Add(count, LengthLimbs(|data|), 8, false).limbs, |taken + data|)
  {
    hide Number, Pow, Add, LengthLimbs;
    if |data| < 0x1_0000_0000 {
      ShortChunkTest(32, 0x1_0000_0000, Left(32, |taken|), |data|);
      CountStaysTrue(count, |data|);
      if IsBitCount(count, |taken|) {
        MoreBits(count, |taken|, |data|);
      }
    }
  }

  lemma {:induction false} NoBlocks(step: StepFunction, c: Chain, msg: seq<byte>)
    requires msg == []
    ensures Blocks(Process(step), 32, c, msg) == c
  {
  }

  lemma {:induction false} MoreBits(count: Block256, n: nat, len: nat)
    requires IsBitCount(count, n)
    ensures (Number(count) + 8 * len) % Pow(8) == 8 * (n + len) % Pow(8)
  {
    SumMod(8 * n, 8 * len, Pow(8));
  }

  // ---- any chunks ----

  /** The source's count of the chunks. */
  function CountAll(chunks: seq<seq<byte>>): Block256 {
    if chunks == [] then Zero()
    else Add(CountAll(chunks[..|chunks| - 1]), LengthLimbs(|chunks[|chunks| - 1]|), 8, false).limbs
  }

  /** The source's hash of any chunks. */
  ghost function ChunksHash(step: StepFunction, host: Order, chunks: seq<seq<byte>>): Block256 {
    Closed(step, TakeAll(32, 0x1_0000_0000, SwapSize(host), chunks), CountAll(chunks))
  }

  /** Any chunks; below 2^32 bytes they give the hash of the whole message. */
  method HashChunks(step: StepFunction, host: Order, chunks: seq<seq<byte>>) returns (h: Block256)
    ensures h == ChunksHash(step, host, chunks)
    ensures AllBelow(0x1_0000_0000, chunks) ==> h == OneShot(step, Concat(chunks))
    ensures AllBelow(0x1_0000_0000, chunks) && Lossless(FilledBlocks(Concat(chunks))) ==>
      h == Standard(step, Concat(chunks))
  {
    hide Take, Add, Number, Pow, LengthLimbs, AllBelow, IsBitCount;
    var c := new Context(step, host);
    for i := 0 to |chunks|
      invariant c.step == step && c.host == host && fresh(c) && fresh(c.buf) && fresh(c.count)
      invariant c.Holds(TakeAll(32, 0x1_0000_0000, SwapSize(host), chunks[..i])) && c.count[..] == CountAll(chunks[..i])
    {
      assert chunks[..i + 1][..i] == chunks[..i];
      c.Update(chunks[i], TakeAll(32, 0x1_0000_0000, SwapSize(host), chunks[..i]));
    }
    assert chunks[..|chunks|] == chunks;
    c.Finish(TakeAll(32, 0x1_0000_0000, SwapSize(host), chunks));
    h := c.chain.hash;
    ShortChunksHash(step, host, chunks);
    LosslessHash(step, Concat(chunks));
  }

  lemma {:induction false} ShortChunksCount(chunks: seq<seq<byte>>)
    requires AllBelow(0x1_0000_0000, chunks)
    ensures IsBitCount(CountAll(chunks), |Concat(chunks)|)
  {
    hide Add, Number, Pow, LengthLimbs;
    if chunks == [] {
      ZeroIsNone();
      SmallMod(0, Pow(8));
    } else {
      var n := |chunks| - 1;
      ShortChunksCount(chunks[..n]);
      ShortChunk(CountAll(chunks[..n]), 0, Concat(chunks[..n]), chunks[n]);
    }
  }

  lemma {:induction false} ShortChunksHash(step: StepFunction, host: Order, chunks: seq<seq<byte>>)
    ensures AllBelow(0x1_0000_0000, chunks) ==> ChunksHash(step, host, chunks) == OneShot(step, Concat(chunks))
  {
    hide Blocks, ZeroFill, IsBitCount;
    if AllBelow(0x1_0000_0000, chunks) {
      ShortChunksAreTaken(32, 0x1_0000_0000, SwapSize(host), chunks);
      ShortChunksCount(chunks);
      CountIsLimbs(CountAll(chunks), |Concat(chunks)|);
    }
  }
}
