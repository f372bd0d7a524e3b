/** GOST R 34.11-94 on chunks of any length. The source casts a chunk's length to 32 bits
    where it tests whether the buffered block fills up; here is exactly which lengths keep
    the hash right. */
module GostChunks {
  import opened ByteType
  import opened Absorb
  import opened Words
  import opened GostSum
  import opened GostHash

  const CAST: nat := 0x1_0000_0000

  function Total(lens: seq<nat>): nat {
    if lens == [] then 0 else Total(lens[..|lens| - 1]) + lens[|lens| - 1]
  }

  function Lengths(chunks: seq<seq<byte>>): seq<nat> {
    seq(|chunks|, i requires 0 <= i < |chunks| => |chunks[i]|)
  }

  /** The fill test is right for every chunk, where it arrives. */
  predicate FillsRight(lens: seq<nat>) {
    lens == [] ||
    var n := |lens| - 1;
    FillsRight(lens[..n]) && FillTestIsRight(32, CAST, Left(32, Total(lens[..n])), lens[n])
  }

  lemma {:induction false} ConcatLength(chunks: seq<seq<byte>>)
    ensures |Concat(chunks)| == Total(Lengths(chunks))
  {
    if chunks == [] {
    } else {
      var n := |chunks| - 1;
      ConcatLength(chunks[..n]);
      assert Lengths(chunks)[..n] == Lengths(chunks[..n]);
    }
  }

  // ---- right lengths ----

  lemma {:induction false} SecondLimb(s: seq<Limb>)
    requires |s| >= 2
    ensures Number(s) >= s[1] * W
  {
    var n := |s| - 1;
    if n == 1 {
      TwoLimbs(s);
    } else {
      SecondLimb(s[..n]);
      assert s[n] * Pow(n) >= 0;
    }
  }

  /** Below 2^61 bytes in all, no chunk loses anything of the count. */
  lemma {:induction false} CountGoesOn(count: Block256, n: nat, len: nat)
    requires IsBitCount(count, n) && n + len < 0x2000_0000_0000_0000
    ensures IsBitCount(Add(count, LengthLimbs(len), 8, false).limbs, n + len)
  {
    hide Add, Number, Pow;
    MoreBits(count, n, len);
    if len < 0x1FFF_FFFF_E000_0000 {
      CountStaysTrue(count, len);
    } else {
      BigEnough(8 * n);
      SecondLimb(count);
      CountStaysTrueIff(count, len);
    }
  }

  lemma {:induction false} BigEnough(x: nat)
    requires x < W
    ensures x % Pow(8) == x
  {
    PowStep(7);
    assert W * Pow(7) >= W;
    SmallMod(x, Pow(8));
  }

  lemma {:induction false} RightChunksAreTaken(word: nat, chunks: seq<seq<byte>>)
    requires FillsRight(Lengths(chunks))
    ensures TakeAll(32, CAST, word, chunks) == Concat(chunks)
  {
    hide FillTestIsRight;
    if chunks == [] {
    } else {
      var n := |chunks| - 1;
      assert Lengths(chunks)[..n] == Lengths(chunks[..n]);
      RightChunksAreTaken(word, chunks[..n]);
      ConcatLength(chunks[..n]);
    }
  }

  /** The source's count, which depends on the lengths only. */
  function CountOf(lens: seq<nat>): Block256 {
    if lens == [] then Zero()
    else Add(CountOf(lens[..|lens| - 1]), LengthLimbs(lens[|lens| - 1]), 8, false).limbs
  }

  lemma {:induction false} CountAllIs(chunks: seq<seq<byte>>)
    ensures CountAll(chunks) == CountOf(Lengths(chunks))
  {
    hide Add, LengthLimbs;
    if chunks == [] {
    } else {
      var n := |chunks| - 1;
      CountAllIs(chunks[..n]);
      assert Lengths(chunks)[..n] == Lengths(chunks[..n]);
    }
  }

  /** The count comes out as the number of bits, modulo 2^256. */
  ghost predicate CountsRight(lens: seq<nat>) {
    IsBitCount(CountOf(lens), Total(lens))
  }

  lemma {:induction false} ShortTotalCounts(lens: seq<nat>)
    ensures Total(lens) < 0x2000_0000_0000_0000 ==> CountsRight(lens)
  {
    hide Add, Number, Pow, LengthLimbs;
    if lens == [] {
      ZeroIsNone();
      SmallMod(0, Pow(8));
    } else if Total(lens) < 0x2000_0000_0000_0000 {
      var n := |lens| - 1;
      ShortTotalCounts(lens[..n]);
      CountGoesOn(CountOf(lens[..n]), Total(lens[..n]), lens[n]);
    }
  }

  lemma {:induction false} RightChunksHash(step: StepFunction, host: Order, chunks: seq<seq<byte>>)
    requires FillsRight(Lengths(chunks)) && CountsRight(Lengths(chunks))
    ensures ChunksHash(step, host, chunks) == OneShot(step, Concat(chunks))
  {
    hide Blocks, ZeroFill, IsBitCount, LimbsOfNumber, CountAll, TakeAll, Concat;
    RightChunksAreTaken(SwapSize(host), chunks);
    ConcatLength(chunks);
    CountAllIs(chunks);
    CountIsLimbs(CountAll(chunks), |Concat(chunks)|);
  }

  // ---- wrong lengths: a message that differs from what is taken in ----

  lemma {:induction false} FirstWrong(lens: seq<nat>) returns (j: nat)
    requires !FillsRight(lens)
    ensures j < |lens| && FillsRight(lens[..j]) && !FillTestIsRight(32, CAST, Left(32, Total(lens[..j])), lens[j])
  {
    hide FillTestIsRight;
    var n := |lens| - 1;
    if FillsRight(lens[..n]) {
      j := n;
    } else {
      j := FirstWrong(lens[..n]);
      assert lens[..n][..j] == lens[..j];
    }
  }

  /** A message cut into pieces of these lengths. */
  function Cut(msg: seq<byte>, lens: seq<nat>): (chunks: seq<seq<byte>>)
    requires |msg| == Total(lens)
    ensures |chunks| == |lens|
    decreases |lens|
  {
    if lens == [] then []
    else
      var n := |lens| - 1;
      Cut(msg[..Total(lens[..n])], lens[..n]) + [msg[Total(lens[..n])..]]
  }

  lemma {:induction false} OneMoreChunk(chunks: seq<seq<byte>>, last: seq<byte>)
    ensures Lengths(chunks + [last]) == Lengths(chunks) + [|last|] && Concat(chunks + [last]) == Concat(chunks) + last
  {
    assert (chunks + [last])[..|chunks|] == chunks;
  }

  lemma {:induction false} CutIs(msg: seq<byte>, lens: seq<nat>)
    requires |msg| == Total(lens)
    ensures Lengths(Cut(msg, lens)) == lens && Concat(Cut(msg, lens)) == msg
    decreases |lens|
  {
    if lens == [] {
    } else {
      var n := |lens| - 1;
      var front, last := msg[..Total(lens[..n])], msg[Total(lens[..n])..];
      CutIs(front, lens[..n]);
      OneMoreChunk(Cut(front, lens[..n]), last);
      assert lens == lens[..n] + [lens[n]] && msg == front + last;
    }
  }

  /** Zeros, but for one byte at the end of the first t. */
  function Single(t: nat, n: nat): (msg: seq<byte>)
    requires 0 < t <= n
    ensures |msg| == n
  {
    Zeros(t - 1) + [1] + Zeros(n - t)
  }

  lemma {:induction false} TotalGrows(lens: seq<nat>, j: nat)
    requires j <= |lens|
    ensures Total(lens[..j]) <= Total(lens)
  {
    if j == |lens| {
      assert lens[..j] == lens;
    } else {
      TotalGrows(lens[..|lens| - 1], j);
      assert lens[..|lens| - 1][..j] == lens[..j];
    }
  }

  lemma {:induction false} ZerosAreTaken(word: nat, n: nat, len: nat)
    ensures Take(32, CAST, word, Zeros(n), Zeros(len)) == Zeros(n + len)
  {
    SwappedZeros(word, 32);
    if !FillTestIsRight(32, CAST, Left(32, n), len) {
      TestErrs(32, CAST, Left(32, n), len);
      var whole := Whole(32, len);
      assert Zeros(len)[whole - 32..whole] == Zeros(32);
    }
  }

  /** Where the fill test errs, the single byte is lost. */
  lemma {:induction false} SingleIsLost(word: nat, t: nat, len: nat)
    requires 0 < t && !FillTestIsRight(32, CAST, Left(32, t), len)
    ensures Take(32, CAST, word, Single(t, t), Zeros(len)) == Zeros(t + len)
  {
    hide FillTestIsRight, Left;
    TestErrs(32, CAST, Left(32, t), len);
    SwappedZeros(word, 32);
    var whole := Whole(32, len);
    assert Zeros(len)[whole - 32..whole] == Zeros(32);
  }

  lemma {:induction false} OnlyZerosAreTaken(word: nat, lens: seq<nat>, j: nat)
    requires j < |lens| && FillsRight(lens[..j])
    requires !FillTestIsRight(32, CAST, Left(32, Total(lens[..j])), lens[j])
    ensures 0 < Total(lens[..j]) <= Total(lens)
    ensures TakeAll(32, CAST, word, Cut(Single(Total(lens[..j]), Total(lens)), lens)) == Zeros(Total(lens))
  {
    hide FillTestIsRight, Left, Take;
    var n, t := |lens| - 1, Total(lens[..j]);
    TestErrs(32, CAST, Left(32, t), lens[j]);
    TotalGrows(lens, j);
    TotalGrows(lens[..n], j);
    assert lens[..n][..j] == lens[..j];
    var msg, front := Single(t, Total(lens)), Total(lens[..n]);
    var chunks := Cut(msg, lens);
    assert chunks[..n] == Cut(msg[..front], lens[..n]) && chunks[n] == msg[front..];
    assert msg[..front] == Single(t, front) && msg[front..] == Zeros(lens[n]);
    if j == n {
      CutIs(Single(t, t), lens[..n]);
      RightChunksAreTaken(word, chunks[..n]);
      SingleIsLost(word, t, lens[n]);
    } else {
      OnlyZerosAreTaken(word, lens[..n], j);
      ZerosAreTaken(word, front, lens[n]);
    }
  }

  // ---- the control sum tells the two apart ----

  lemma {:induction false} ZeroWords(k: nat)
    ensures WordsOf(LittleEndian, 4, Zeros(4 * k)) == seq(k, _ => 0)
  {
    if k == 0 {
    } else {
      ZeroWords(k - 1);
      assert Zeros(4 * k)[4..] == Zeros(4 * (k - 1)) && Zeros(4 * k)[..4] == Zeros(4);
      ZeroNumber(4);
    }
  }

  lemma {:induction false} ZeroNumber(k: nat)
    ensures FromBytes(LittleEndian, Zeros(k)) == 0
  {
    if k == 0 {
    } else {
      ZeroNumber(k - 1);
      assert Zeros(k)[1..] == Zeros(k - 1);
    }
  }

  lemma {:induction false} NumberOfZeros(bs: seq<byte>)
    requires FromBytes(LittleEndian, bs) == 0
    ensures bs == Zeros(|bs|)
  {
    if bs == [] {
    } else {
      NumberOfZeros(bs[1..]);
      assert bs == [bs[0]] + bs[1..];
    }
  }

  lemma {:induction false} WordsOfZeros(bs: seq<byte>, k: nat)
    requires |bs| == 4 * k && WordsOf(LittleEndian, 4, bs) == seq(k, _ => 0)
    ensures bs == Zeros(|bs|)
    decreases k
  {
    if k == 0 {
    } else {
      var ws := WordsOf(LittleEndian, 4, bs);
      assert ws[0] == FromBytes(LittleEndian, bs[..4]) && ws[1..] == WordsOf(LittleEndian, 4, bs[4..]);
      NumberOfZeros(bs[..4]);
      WordsOfZeros(bs[4..], k - 1);
      assert bs == bs[..4] + bs[4..];
    }
  }

  lemma {:induction false} AddZero(a: Block256, n: nat)
    requires n <= 8
    ensures Add(a, Zero(), n, false) == Sum(a[..n], 0) && Add(Zero(), a, n, false) == Sum(a[..n], 0)
  {
    if n == 0 {
    } else {
      AddZero(a, n - 1);
      assert a[..n] == a[..n - 1] + [a[n - 1]];
    }
  }

  lemma {:induction false} LastOfSum(front: seq<byte>, last: seq<byte>)
    requires |front| % 32 == 0 && |last| == 32
    ensures CodeSum(BlockList(front + last)) == Add(CodeSum(BlockList(front)), LimbsOf(last), 8, false).limbs
  {
    hide LimbsOf, Add;
    var msg := front + last;
    assert msg[..|msg| - 32] == front && msg[|msg| - 32..] == last;
    var list := BlockList(msg);
    assert list[..|list| - 1] == BlockList(front);
  }

  lemma {:induction false} ZeroBlock(block: seq<byte>)
    requires |block| == 32
    ensures LimbsOf(block) == Zero() <==> block == Zeros(32)
  {
    hide WordsOf;
    ZeroWords(8);
    if LimbsOf(block) == Zero() {
      WordsOfZeros(block, 8);
    }
  }

  lemma {:induction false} SumOfZeros(n: nat)
    requires n % 32 == 0
    ensures CodeSum(BlockList(Zeros(n))) == Zero()
  {
    hide LimbsOf, Add;
    if n == 0 {
    } else {
      SumOfZeros(n - 32);
      assert Zeros(n) == Zeros(n - 32) + Zeros(32);
      LastOfSum(Zeros(n - 32), Zeros(32));
      ZeroBlock(Zeros(32));
      AddZero(Zero(), 8);
    }
  }

  lemma {:induction false} SumOfSingle(t: nat, n: nat)
    requires 0 < t <= n && n % 32 == 0
    ensures CodeSum(BlockList(Single(t, n))) != Zero()
    decreases n
  {
    hide LimbsOf, Add, CodeSum, BlockList;
    var m := n - 32;
    if t <= m {
      SumOfSingle(t, m);
      assert Single(t, n) == Single(t, m) + Zeros(32);
      LastOfSum(Single(t, m), Zeros(32));
      ZeroBlock(Zeros(32));
      AddZero(CodeSum(BlockList(Single(t, m))), 8);
    } else {
      var last := Single(t - m, 32);
      assert Single(t, n) == Zeros(m) + last;
      LastOfSum(Zeros(m), last);
      SumOfZeros(m);
      assert last[t - m - 1] == 1;
      ZeroBlock(last);
      AddZero(LimbsOf(last), 8);
    }
  }

  lemma {:induction false} LastShowsSum(step: StepFunction, taken: seq<byte>, count: Block256)
    requires forall h, m :: step(h, m) == m
    ensures Closed(step, taken, count) == CodeSum(FilledBlocks(taken))
  {
    hide Blocks, CodeSum, BlockList;
    FilledIsWhole(|taken|);
    ControlSum(step, taken + ZeroFill(|taken|));
  }

  /** A lost byte shows. */
  lemma {:induction false} WrongFillShows(host: Order, lens: seq<nat>)
    returns (chunks: seq<seq<byte>>, step: StepFunction)
    requires !FillsRight(lens)
    ensures Lengths(chunks) == lens && ChunksHash(step, host, chunks) != OneShot(step, Concat(chunks))
  {
    hide FillTestIsRight, Left, Blocks, TakeAll, CountAll, Total, FillsRight, LimbsOfNumber, CodeSum, BlockList;
    var j := FirstWrong(lens);
    OnlyZerosAreTaken(SwapSize(host), lens, j);
    var t, n := Total(lens[..j]), Total(lens);
    chunks, step := Cut(Single(t, n), lens), (h, m) => m;
    CutIs(Single(t, n), lens);
    LastShowsSum(step, Zeros(n), CountAll(chunks));
    LastShowsSum(step, Single(t, n), LimbsOfNumber(8 * n, 8));
    FilledIsWhole(n);
    var full := n + |ZeroFill(n)|;
    assert Zeros(n) + ZeroFill(n) == Zeros(full) && Single(t, n) + ZeroFill(n) == Single(t, full);
    SumOfZeros(full);
    SumOfSingle(t, full);
  }

  // ---- a step function that tells counts apart ----

  function Shown(h: Block256, m: Block256): Block256 {
    if m == Zero() then h else m
  }

  function ShowCount(): StepFunction {
    (h, m) => Shown(h, m)
  }

  lemma {:induction false} ZeroBlocksShowNothing(n: nat)
    requires n % 32 == 0
    ensures Blocks(Process(ShowCount()), 32, START, Zeros(n)) == START
  {
    hide LimbsOf, Add;
    if n == 0 {
    } else {
      assert Zeros(n)[..32] == Zeros(32) && Zeros(n)[32..] == Zeros(n - 32);
      ZeroBlock(Zeros(32));
      AddZero(Zero(), 8);
      assert Process(ShowCount())(START, Zeros(32)) == START;
      ZeroBlocksShowNothing(n - 32);
    }
  }

  lemma {:induction false} CountIsShown(n: nat, count: Block256)
    ensures Closed(ShowCount(), Zeros(n), count) == count
  {
    hide Blocks, Process;
    FilledIsWhole(n);
    assert Zeros(n) + ZeroFill(n) == Zeros(n + |ZeroFill(n)|);
    ZeroBlocksShowNothing(n + |ZeroFill(n)|);
  }

  lemma {:induction false} OnlyZeros(word: nat, lens: seq<nat>)
    ensures TakeAll(32, CAST, word, Cut(Zeros(Total(lens)), lens)) == Zeros(Total(lens))
  {
    hide Take;
    if lens == [] {
    } else {
      var n := |lens| - 1;
      var msg, front := Zeros(Total(lens)), Total(lens[..n]);
      var chunks := Cut(msg, lens);
      OnlyZeros(word, lens[..n]);
      assert msg[..front] == Zeros(front) && msg[front..] == Zeros(lens[n]);
      assert chunks[..n] == Cut(Zeros(front), lens[..n]) && chunks[n] == Zeros(lens[n]);
      ZerosAreTaken(word, front, lens[n]);
    }
  }

  /** A wrong count shows. */
  lemma {:induction false} WrongCountShows(host: Order, lens: seq<nat>)
    returns (chunks: seq<seq<byte>>, step: StepFunction)
    requires !CountsRight(lens)
    ensures Lengths(chunks) == lens && ChunksHash(step, host, chunks) != OneShot(step, Concat(chunks))
  {
    hide Blocks, TakeAll, CountAll, Total, LimbsOfNumber, CountOf, Number, Pow;
    var n := Total(lens);
    chunks, step := Cut(Zeros(n), lens), ShowCount();
    CutIs(Zeros(n), lens);
    OnlyZeros(SwapSize(host), lens);
    CountAllIs(chunks);
    CountIsShown(n, CountOf(lens));
    CountIsShown(n, LimbsOfNumber(8 * n, 8));
    LimbsRoundTrip(8 * n, 8);
  }

  // ---- exactly when chunks hash right ----

  /** Whatever the bytes and the step function are, chunks of these lengths hash to the
      hash of the whole message. */
  ghost predicate AlwaysRight(host: Order, lens: seq<nat>) {
    forall chunks: seq<seq<byte>>, step: StepFunction | Lengths(chunks) == lens ::
      ChunksHash(step, host, chunks) == OneShot(step, Concat(chunks))
  }

  /** That is so exactly when the fill test is right for every chunk and the count comes out
      right; below 2^61 bytes in all the second holds by itself. */
  lemma {:induction false} ChunksHashIff(host: Order, lens: seq<nat>)
    ensures AlwaysRight(host, lens) <==> FillsRight(lens) && CountsRight(lens)
    ensures Total(lens) < 0x2000_0000_0000_0000 ==> (AlwaysRight(host, lens) <==> FillsRight(lens))
  {
    hide ChunksHash, OneShot, Total, FillsRight, CountsRight, Lengths;
    ShortTotalCounts(lens);
    if FillsRight(lens) && CountsRight(lens) {
      forall chunks: seq<seq<byte>>, step: StepFunction | Lengths(chunks) == lens
        ensures ChunksHash(step, host, chunks) == OneShot(step, Concat(chunks))
      {
        RightChunksHash(step, host, chunks);
      }
    } else if FillsRight(lens) {
      var chunks, step := WrongCountShows(host, lens);
    } else {
      var chunks, step := WrongFillShows(host, lens);
    }
  }

  /** A byte and then 2^32 bytes: the cast length is 0, the test finds the block not full,
      and the byte is lost. */
  lemma {:induction false} LongChunkLosesByte(host: Order)
    ensures !FillsRight([1, 0x1_0000_0000]) && !AlwaysRight(host, [1, 0x1_0000_0000])
  {
    hide AlwaysRight;
    var lens := [1, 0x1_0000_0000];
    assert lens[..1] == [1] && [1][..0] == [];
    assert Total([1]) == 1 && Left(32, 1) == 1;
    assert !FillTestIsRight(32, CAST, 1, 0x1_0000_0000);
    ChunksHashIff(host, lens);
  }

  /** The same 2^32 bytes in front are hashed right: the test is not made on an empty buffer. */
  lemma {:induction false} LongFirstChunkIsRight(host: Order)
    ensures AlwaysRight(host, [0x1_0000_0000, 1])
  {
    hide AlwaysRight;
    var lens := [0x1_0000_0000, 1];
    assert lens[..1] == [0x1_0000_0000] && [0x1_0000_0000][..0] == [];
    assert Total([0x1_0000_0000]) == 0x1_0000_0000 && Left(32, 0x1_0000_0000) == 0;
    ChunksHashIff(host, lens);
  }
}
