/** MD5, SHA-1 and the SHA-2 family as streams: a block buffer, the chaining value and a
    two-word byte count. Any way of cutting a message into chunks gives the hash of the
    padded message. The compression function is a parameter. */
module CountedHash {
  import opened ByteType
  import opened Absorb
  import opened Words

  /** What the four implementations differ in, and the host's byte order. Four-byte words go with 64-byte blocks,
      eight-byte words with 128-byte blocks. */
  datatype Scheme<!H, !W> =
    Scheme(order: Order, host: Order, wide: bool, start: H, word: nat -> W, compress: (H, seq<W>) -> H)

  function WordSize(s: Scheme): nat {
    if s.wide then 8 else 4
  }

  function Block(s: Scheme): nat {
    16 * WordSize(s)
  }

  /** The words that the host has to swap. */
  function SwapSize(s: Scheme): nat {
    if s.host == s.order then 0 else WordSize(s)
  }

  /** One more than the largest word. */
  function Modulus(s: Scheme): nat {
    if s.wide then 0x1_0000_0000_0000_0000 else 0x1_0000_0000
  }

  function Typed<H, W>(s: Scheme<H, W>, ws: seq<nat>): seq<W> {
    seq(|ws|, i requires 0 <= i < |ws| => s.word(ws[i]))
  }

  function Process<H, W>(s: Scheme<H, W>): (H, seq<byte>) -> H {
    (h, block) => s.compress(h, Typed(s, WordsOf(s.order, WordSize(s), block)))
  }

  // ---- the count ----

  datatype Count = Count(high: nat, low: nat)

  function Value(modulus: nat, c: Count): nat {
    c.high * modulus + c.low
  }

  predicate InRange(modulus: nat, c: Count) {
    c.high < modulus && c.low < modulus
  }

  /** The length is cast to a word, added to the low word, and a wrap-around carries. */
  function AddLength(modulus: nat, c: Count, len: nat): Count
    requires modulus > 0
  {
    var low := (c.low + len % modulus) % modulus;
    Count(if low < len % modulus then (c.high + 1) % modulus else c.high, low)
  }

  /** The carry out of the low word, and out of the high word. */
  function Carry(modulus: nat, c: Count, len: nat): int
    requires modulus > 0
  {
    if c.low + len % modulus < modulus then 0 else 1
  }

  function Wrap(modulus: nat, c: Count, len: nat): int
    requires modulus > 0
  {
    if Carry(modulus, c, len) == 1 && c.high + 1 == modulus then 1 else 0
  }

  lemma {:induction false} AddLengthLimbs(modulus: nat, c: Count, len: nat)
    requires modulus > 0 && InRange(modulus, c)
    ensures InRange(modulus, AddLength(modulus, c, len))
    ensures var c', carry, wrap := AddLength(modulus, c, len), Carry(modulus, c, len), Wrap(modulus, c, len);
      c'.low == c.low + len % modulus - carry * modulus && c'.high == c.high + carry - wrap * modulus
  {
    OneWrap(c.low + len % modulus, modulus);
    OneWrap(c.high + 1, modulus);
  }

  lemma {:induction false} Limbs(m: int, high: int, low: int, t: int, carry: int, wrap: int)
    ensures (high + carry - wrap * m) * m + (low + t - carry * m) == high * m + low + t - wrap * (m * m)
  {
    Distribute(high, carry, m);
    Distribute(high + carry, -(wrap * m), m);
    Associate(wrap, m, m);
  }

  /** Adding a length adds its low word, modulo the two-word range. */
  lemma {:induction false} AddLengthCounts(modulus: nat, c: Count, len: nat)
    requires modulus > 0 && InRange(modulus, c)
    ensures InRange(modulus, AddLength(modulus, c, len))
    ensures modulus * modulus > 0
    ensures Value(modulus, AddLength(modulus, c, len)) == (Value(modulus, c) + len % modulus) % (modulus * modulus)
  {
    hide AddLength, Carry, Wrap;
    var t, c' := len % modulus, AddLength(modulus, c, len);
    var carry, wrap := Carry(modulus, c, len), Wrap(modulus, c, len);
    AddLengthLimbs(modulus, c, len);
    Limbs(modulus, c.high, c.low, t, carry, wrap);
    Below(c'.high, modulus, modulus, c'.low);
    ModUnique(Value(modulus, c) + t, modulus * modulus, wrap, Value(modulus, c'));
  }

  lemma {:induction false} OneWrap(x: nat, modulus: nat)
    requires 0 < modulus && x < 2 * modulus
    ensures x % modulus == if x < modulus then x else x - modulus
  {
    if x >= modulus {
      ModUnique(x, modulus, 1, x - modulus);
    }
  }

  /** The count stays the true count, exactly when the chunk's length fits in a word. */
  lemma {:induction false} CountIsExactIff(modulus: nat, c: Count, n: nat, len: nat)
    requires modulus > 1 && InRange(modulus, c) && modulus * modulus > 0
    requires Value(modulus, c) == n % (modulus * modulus) && len < modulus * modulus
    ensures Value(modulus, AddLength(modulus, c, len)) == (n + len) % (modulus * modulus) <==> len < modulus
  {
    var m2, t := modulus * modulus, len % modulus;
    AddLengthCounts(modulus, c, len);
    SumMod(n, len, m2);
    if len < modulus {
      SmallMod(len, modulus);
    } else {
      assert t < modulus <= len;
      SameMod(n % m2, t, len, m2);
    }
  }

  lemma {:induction false} WholeModulusIsLost(m: nat)
    requires m > 1
    ensures AddLength(m, Count(0, 0), m) == Count(0, 0) && m * m > 0 && m % (m * m) == m
  {
    ModUnique(m, m, 1, 0);
    SmallMod(0, m);
    Below(1, m, m, 0);
    ModUnique(m, m * m, 0, m);
  }

  /** A chunk of exactly 2^32 bytes is not counted at all by 32-bit words. */
  lemma {:induction false} LongChunkIsNotCounted()
    ensures Value(0x1_0000_0000, AddLength(0x1_0000_0000, Count(0, 0), 0x1_0000_0000)) == 0
    ensures 0x1_0000_0000 % (0x1_0000_0000 * 0x1_0000_0000) == 0x1_0000_0000
  {
    hide AddLength;
    WholeModulusIsLost(0x1_0000_0000);
  }

  /** Two different addends below m give different sums. */
  lemma {:induction false} SameMod(x: nat, a: nat, b: nat, m: nat)
    requires x < m && a < b < m
    ensures (x + a) % m != (x + b) % m
  {
    OneWrap(x + a, m);
    OneWrap(x + b, m);
  }

  // ---- the padding ----

  /** A single one bit and zeros, up to where the length goes in its block. */
  function Filler(s: Scheme, n: nat): seq<byte> {
    [0x80] + Zeros((Block(s) - 2 * WordSize(s) - 1 - n) % Block(s))
  }

  /** The number of bits, in two words. */
  function LengthField(s: Scheme, n: nat): (field: seq<byte>)
    ensures |field| == 2 * WordSize(s)
  {
    ToBytes(s.order, 8 * n % (Modulus(s) * Modulus(s)), 2 * WordSize(s))
  }

  function Padded(s: Scheme, msg: seq<byte>): seq<byte> {
    msg + Filler(s, |msg|) + LengthField(s, |msg|)
  }

  /** The hash of a whole message: compress the blocks of the padded message. */
  ghost function OneShot<H, W>(s: Scheme<H, W>, msg: seq<byte>): H {
    Blocks(Process(s), Block(s), s.start, Padded(s, msg))
  }

  /** The same with any number as the length: what the source gives when it has taken in
      the bytes and counted that many. */
  ghost function Closed<H, W>(s: Scheme<H, W>, taken: seq<byte>, counted: nat): H {
    Blocks(Process(s), Block(s), s.start, taken + Filler(s, |taken|) + LengthField(s, counted))
  }

  /** How many bytes of padding the source takes from its table. */
  function Last(s: Scheme, left: nat): int {
    var end := Block(s) - 2 * WordSize(s);
    if left < end then end - left else Block(s) + end - left
  }

  lemma {:induction false} LastGap(block: nat, end: nat, n: nat)
    requires 0 < end < block
    ensures var left := n % block;
      var last := if left < end then end - left else block + end - left;
      && 0 < last <= block && (end - 1 - n) % block == last - 1 && (n + last) % block == end
  {
    var left, t := n % block, n / block;
    var last := if left < end then end - left else block + end - left;
    var q := if left < end then 0 else 1;
    assert n == t * block + left;
    Distribute(-t, -q, block);
    Distribute(t, q, block);
    ModUnique(end - 1 - n, block, -t - q, last - 1);
    ModUnique(n + last, block, t + q, end);
  }

  lemma {:induction false} LastFills(s: Scheme, n: nat)
    ensures var last := Last(s, n % Block(s));
      && 0 < last <= Block(s)
      && Filler(s, n) == [0x80] + Zeros(last - 1)
      && (n + last) % Block(s) == Block(s) - 2 * WordSize(s)
  {
    LastGap(Block(s), Block(s) - 2 * WordSize(s), n);
  }

  /** The padded message is whole blocks. */
  lemma {:induction false} PaddedIsWhole(s: Scheme, msg: seq<byte>)
    ensures |Padded(s, msg)| % Block(s) == 0
    ensures |Filler(s, |msg|)| <= Block(s) && msg <= Padded(s, msg)
  {
    LastFills(s, |msg|);
    WholeBlock(Block(s), |msg| + |Filler(s, |msg|)|, 2 * WordSize(s));
  }

  lemma {:induction false} WholeBlock(block: nat, n: nat, rest: nat)
    requires 0 < rest < block && n % block == block - rest
    ensures (n + rest) % block == 0
  {
    assert n == n / block * block + (block - rest);
    Distribute(n / block, 1, block);
    ModUnique(n + rest, block, n / block + 1, 0);
  }

  /** The two length words as the source computes them: shifted left by three, with the
      top bits of the low word moved to the high word. */
  function BitCount(modulus: nat, c: Count): Count
    requires modulus >= 8
  {
    Count(c.high * 8 % modulus + c.low / (modulus / 8), c.low * 8 % modulus)
  }

  lemma {:induction false} Times8(k: nat, x: nat)
    requires k > 0
    ensures x * 8 % (8 * k) == 8 * (x % k) && x * 8 == x / k * (8 * k) + 8 * (x % k)
  {
    assert x == x / k * k + x % k;
    Associate(x / k, k, 8);
    Distribute(x / k * k, x % k, 8);
    Associate(x / k, 8, k);
    ModUnique(x * 8, 8 * k, x / k, 8 * (x % k));
  }

  lemma {:induction false} BitCountIsEightfold(k: nat, c: Count)
    requires k > 0 && InRange(8 * k, c)
    ensures InRange(8 * k, BitCount(8 * k, c))
    ensures 8 * k * (8 * k) > 0 && Value(8 * k, BitCount(8 * k, c)) == 8 * Value(8 * k, c) % (8 * k * (8 * k))
  {
    var m, b := 8 * k, BitCount(8 * k, c);
    Times8(k, c.high);
    Times8(k, c.low);
    ModUnique(c.low, k, c.low / k, c.low % k);
    TopBits(k, c.low);
    assert m / 8 == k;
    EightLimbs(m, c.high, c.low, c.high / k, 8 * (c.high % k), c.low / k, b.low);
    Below(b.high, m, m, b.low);
    ModUnique(8 * Value(m, c), m * m, c.high / k, Value(m, b));
  }

  lemma {:induction false} TopBits(k: nat, x: nat)
    requires k > 0 && x < 8 * k
    ensures 0 <= x / k < 8
  {
    assert x == x / k * k + x % k;
    Multiple(x / k - 7, k);
    Distribute(x / k - 7, 7, k);
  }

  lemma {:induction false} EightLimbs(m: int, high: int, low: int, w: int, h: int, q: int, l: int)
    requires high * 8 == w * m + h && low * 8 == q * m + l
    ensures 8 * (high * m + low) == w * (m * m) + ((h + q) * m + l)
  {
    Associate(high, m, 8);
    Associate(high, 8, m);
    assert high * m * 8 == (w * m + h) * m;
    Distribute(w * m, h, m);
    Associate(w, m, m);
    Distribute(h, q, m);
  }

  lemma {:induction false} TwiceMod(n: nat, m: nat)
    requires m > 0
    ensures 8 * (n % m) % m == 8 * n % m
  {
    var x := 8 * (n % m);
    assert n == n / m * m + n % m;
    assert x == x / m * m + x % m;
    Associate(n / m, m, 8);
    Associate(n / m, 8, m);
    Distribute(n / m * 8, x / m, m);
    ModUnique(8 * n, m, n / m * 8 + x / m, x % m);
  }

  lemma {:induction false} ModulusIsPower(s: Scheme)
    ensures Modulus(s) == Pow256(WordSize(s)) && Modulus(s) == 8 * (Modulus(s) / 8)
  {
    hide Pow256;
    Pow8Is();
  }

  lemma {:induction false} Pow8Is()
    ensures Pow256(4) == 0x1_0000_0000 && Pow256(8) == 0x1_0000_0000_0000_0000
  {
    assert Pow256(1) == 256 && Pow256(2) == 0x1_0000 && Pow256(3) == 0x100_0000 && Pow256(4) == 0x1_0000_0000;
    assert Pow256(5) == 0x100_0000_0000 && Pow256(6) == 0x1_0000_0000_0000;
    assert Pow256(7) == 0x100_0000_0000_0000 && Pow256(8) == 0x1_0000_0000_0000_0000;
  }

  /** The length field's words are the source's two words. */
  lemma {:induction false} LengthWords(s: Scheme, n: nat, c: Count)
    requires InRange(Modulus(s), c) && Value(Modulus(s), c) == n % (Modulus(s) * Modulus(s))
    ensures WordsOf(s.order, WordSize(s), LengthField(s, n)) ==
      var b := BitCount(Modulus(s), c);
      if s.order.BigEndian? then [b.high, b.low] else [b.low, b.high]
  {
    var m := Modulus(s);
    ModulusIsPower(s);
    EightfoldWords(s.order, WordSize(s), m, n, c);
    assert 2 * WordSize(s) == WordSize(s) + WordSize(s);
  }

  lemma {:induction false} EightfoldWords(order: Order, size: nat, m: nat, n: nat, c: Count)
    requires m == Pow256(size) && m == 8 * (m / 8) && m >= 8 && size > 0 && m * m > 0
    requires InRange(m, c) && Value(m, c) == n % (m * m)
    ensures WordsOf(order, size, ToBytes(order, 8 * n % (m * m), size + size)) ==
      var b := BitCount(m, c);
      if order.BigEndian? then [b.high, b.low] else [b.low, b.high]
  {
    hide WordsOf, ToBytes, BitCount, Pow256;
    BitCountIsEightfold(m / 8, c);
    TwiceMod(n, m * m);
    var b := BitCount(m, c);
    TwoWords(order, size, b.high, b.low);
  }

  // ---- the context ----

  class Context<H, W> {
    const scheme: Scheme<H, W>
    const buf: array<byte>
    var hash: H
    var count: Count

    /** The context has taken in these bytes and counted that many. */
    ghost predicate Holds(taken: seq<byte>, counted: nat)
      reads this, buf
    {
      var block, m := Block(scheme), Modulus(scheme);
      && buf.Length == block
      && InRange(m, count) && Value(m, count) == counted % (m * m)
      && Left(block, counted) == Left(block, |taken|)
      && buf[..Left(block, |taken|)] == Rest(block, taken)
      && hash == Blocks(Process(scheme), block, scheme.start, taken)
    }

    /** The context has absorbed msg. */
    ghost predicate Absorbed(msg: seq<byte>)
      reads this, buf
    {
      Holds(msg, |msg|)
    }

    constructor (scheme: Scheme<H, W>)
      ensures Absorbed([]) && this.scheme == scheme && fresh(buf)
    {
      this.scheme := scheme;
      buf := new byte[Block(scheme)](_ => 0);
      hash, count := scheme.start, Count(0, 0);
    }

    method Reset()
      requires buf.Length == Block(scheme)
      modifies this, buf
      ensures Absorbed([])
    {
      forall i | 0 <= i < buf.Length {
        buf[i] := 0;
      }
      hash, count := scheme.start, Count(0, 0);
    }

    /** The position in the block, from the low word of the count. */
    lemma {:induction false} Position(taken: seq<byte>, counted: nat)
      requires Holds(taken, counted)
      ensures count.low % Block(scheme) == Left(Block(scheme), |taken|)
    {
      LowBits(Block(scheme), if scheme.wide then 0x200_0000_0000_0000 else 0x400_0000, counted, count);
    }

    method Update(data: seq<byte>, ghost taken: seq<byte>, ghost counted: nat)
      requires Holds(taken, counted)
      modifies this, buf
      ensures Holds(Take(Block(scheme), Modulus(scheme), SwapSize(scheme), taken, data),
                    counted + |data| % Modulus(scheme))
      ensures |data| < Modulus(scheme) ==> Holds(taken + data, counted + |data|)
    {
      hide Blocks, Rest, Process, Left, Take, AddLength, FillTestIsRight, SwapSize, Value, InRange;
      var block, m := Block(scheme), Modulus(scheme);
      Position(taken, counted);
      var left := count.low % block;
      Counting(scheme, count, taken, counted, data);
      count := AddLength(m, count, |data|);
      hash := Absorb.Update(Process(scheme), block, m, SwapSize(scheme), buf, left, hash, data, scheme.start, taken);
    }

    /** Pads from the table, sets the last two words to the bit count, and compresses. */
    method Finish(ghost taken: seq<byte>, ghost counted: nat)
      requires Holds(taken, counted)
      modifies this, buf
      ensures hash == Closed(scheme, taken, counted)
      ensures counted == |taken| ==> hash == OneShot(scheme, taken)
    {
      hide Blocks, Rest, Process, WordsOf, Take, BitCount, LengthField, Typed;
      var block, m := Block(scheme), Modulus(scheme);
      Position(taken, counted);
      LastFills(scheme, |taken|);
      LengthWords(scheme, counted, count);
      var last := Last(scheme, count.low % block);
      var b := BitCount(m, count);
      Update([0x80] + Zeros(last - 1), taken, counted);
      ghost var filled := taken + Filler(scheme, |taken|);
      var end := block - 2 * WordSize(scheme);
      var words := WordsOf(scheme.order, WordSize(scheme), buf[..end])
                 + if scheme.order.BigEndian? then [b.high, b.low] else [b.low, b.high];
      LastBlock(scheme, taken, counted, filled, hash, words);
      hash := scheme.compress(hash, Typed(scheme, words));
    }
  }

  lemma {:induction false} ShiftedLeft(block: nat, x: nat, y: nat, k: nat)
    requires block > 0 && y == x + k * block
    ensures Left(block, y) == Left(block, x)
  {
    Distribute(x / block, k, block);
    ModUnique(y, block, x / block + k, x % block);
  }

  lemma {:induction false} WholePart(n: nat, m: nat)
    requires m > 0
    ensures n == n / m * m + n % m
  {
  }

  lemma {:induction false} LeftOfSums(block: nat, x: nat, y: nat, left: nat, a: nat, b: nat, c: nat, r: nat)
    requires block > 0 && x == a * block + left && y == b * block + left
    ensures Left(block, x + r) == Left(block, y + (c * block + r))
  {
    hide Left;
    Distribute(b, c, block);
    ShiftedLeft(block, left + r, x + r, a);
    ShiftedLeft(block, left + r, y + (c * block + r), b + c);
  }

  lemma {:induction false} LeftPart(block: nat, n: nat)
    requires block > 0
    ensures n == n / block * block + Left(block, n)
  {
    WholePart(n, block);
  }

  /** A cast to a multiple of the block does not move the position in the block. */
  lemma {:induction false} SamePosition(block: nat, k: nat, m: nat, counted: nat, n: nat, len: nat)
    requires block > 0 && m > 0 && m == k * block && Left(block, counted) == Left(block, n)
    ensures Left(block, counted + len % m) == Left(block, n + len)
  {
    hide Left;
    WholePart(len, m);
    Associate(len / m, k, block);
    LeftPart(block, counted);
    LeftPart(block, n);
    LeftOfSums(block, counted, n, Left(block, n), counted / block, n / block, len / m * k, len % m);
  }

  /** What a chunk does to the count and, if it is short, that it is taken in. */
  lemma {:induction false} Counting(s: Scheme, c: Count, taken: seq<byte>, counted: nat, data: seq<byte>)
    requires var m := Modulus(s); InRange(m, c) && Value(m, c) == counted % (m * m)
    requires Left(Block(s), counted) == Left(Block(s), |taken|)
    ensures var m, len, c' := Modulus(s), |data|, AddLength(Modulus(s), c, |data|);
      && InRange(m, c') && Value(m, c') == (counted + len % m) % (m * m)
      && Left(Block(s), counted + len % m) == Left(Block(s), |taken + data|)
      && (len < m ==> len % m == len && Take(Block(s), m, SwapSize(s), taken, data) == taken + data)
  {
    hide Left, AddLength;
    var m, block, len := Modulus(s), Block(s), |data|;
    AddLengthCounts(m, c, len);
    SumMod(counted, len % m, m * m);
    SamePosition(block, if s.wide then 0x200_0000_0000_0000 else 0x400_0000, m, counted, |taken|, len);
    if len < m {
      ShortChunkTest(block, m, Left(block, |taken|), len);
      SmallMod(len, m);
    }
  }

  /** The low word's position in the block is the message's. */
  lemma {:induction false} LowBits(block: nat, k: nat, n: nat, c: Count)
    requires block > 0 && k > 0 && block * k * (block * k) > 0
    requires InRange(block * k, c) && Value(block * k, c) == n % (block * k * (block * k))
    ensures c.low % block == n % block
  {
    var m := block * k;
    var q := n / (m * m);
    assert n == q * (m * m) + (c.high * m + c.low);
    Associate(q, m, m);
    Distribute(q * m, c.high, m);
    var z := q * m + c.high;
    assert n == z * m + c.low;
    Associate(z, k, block);
    assert c.low == c.low / block * block + c.low % block;
    Distribute(z * k, c.low / block, block);
    ModUnique(n, block, z * k + c.low / block, c.low % block);
  }

  /** The block that carries the length closes the hash. */
  lemma {:induction false} LastBlock<H, W>(s: Scheme<H, W>, taken: seq<byte>, counted: nat, filled: seq<byte>,
                                        h: H, words: seq<nat>)
    requires filled == taken + Filler(s, |taken|) && |filled| % Block(s) == Block(s) - 2 * WordSize(s)
    requires h == Blocks(Process(s), Block(s), s.start, filled)
    requires words == WordsOf(s.order, WordSize(s), Rest(Block(s), filled))
                    + WordsOf(s.order, WordSize(s), LengthField(s, counted))
    ensures s.compress(h, Typed(s, words)) == Closed(s, taken, counted)
  {
    hide WordsOf, LengthField, Rest, Typed, Filler;
    var block, size, rest, field := Block(s), WordSize(s), Rest(Block(s), filled), LengthField(s, counted);
    BlocksSplit(Process(s), block, s.start, filled, field);
    assert (rest + field)[..block] == rest + field;
    assert |(rest + field)[block..]| == 0;
    ModUnique(|rest|, size, 14, 0);
    WordsAppend(s.order, size, rest, field);
  }

  // ---- any chunks ----

  /** What the source counts. */
  function CountAll(modulus: nat, chunks: seq<seq<byte>>): nat
    requires modulus > 0
  {
    if chunks == [] then 0 else CountAll(modulus, chunks[..|chunks| - 1]) + |chunks[|chunks| - 1]| % modulus
  }

  /** The source's hash of any chunks. */
  ghost function ChunksHash<H, W>(s: Scheme<H, W>, chunks: seq<seq<byte>>): H {
    Closed(s, TakeAll(Block(s), Modulus(s), SwapSize(s), chunks), CountAll(Modulus(s), chunks))
  }

  /** Everything is counted, exactly when every chunk's length fits in a word. */
  lemma {:induction false} AllCountedIff(modulus: nat, chunks: seq<seq<byte>>)
    requires modulus > 0
    ensures CountAll(modulus, chunks) <= |Concat(chunks)|
    ensures CountAll(modulus, chunks) == |Concat(chunks)| <==> AllBelow(modulus, chunks)
  {
    if chunks == [] {
    } else {
      var n := |chunks| - 1;
      AllCountedIff(modulus, chunks[..n]);
      FitsIff(|chunks[n]|, modulus);
      assert AllBelow(modulus, chunks) <==> AllBelow(modulus, chunks[..n]) && |chunks[n]| < modulus;
    }
  }

  lemma {:induction false} FitsIff(n: nat, modulus: nat)
    requires modulus > 0
    ensures n % modulus <= n && (n % modulus == n <==> n < modulus)
  {
    if n < modulus {
      SmallMod(n, modulus);
    } else {
      assert n % modulus < modulus;
    }
  }

  /** Chunks whose lengths fit in a word give the hash of the whole message. */
  lemma {:induction false} ShortChunksHash<H, W>(s: Scheme<H, W>, chunks: seq<seq<byte>>)
    ensures AllBelow(Modulus(s), chunks) ==> ChunksHash(s, chunks) == OneShot(s, Concat(chunks))
  {
    hide Blocks, Filler, LengthField;
    if AllBelow(Modulus(s), chunks) {
      ShortChunksAreTaken(Block(s), Modulus(s), SwapSize(s), chunks);
      AllCountedIff(Modulus(s), chunks);
    }
  }

  // ---- when the source's hash is the hash of the message ----

  /** Natural numbers for words and lists of them for chaining values. */
  function Plain(order: Order, host: Order, wide: bool, compress: (seq<nat>, seq<nat>) -> seq<nat>)
    : Scheme<seq<nat>, nat>
  {
    Scheme(order, host, wide, [], n => n, compress)
  }

  /** A compression function that records the words of all blocks. */
  function Record(): (seq<nat>, seq<nat>) -> seq<nat> {
    (h, words) => h + words
  }

  function Recorder(order: Order, host: Order, wide: bool): Scheme<seq<nat>, nat> {
    Plain(order, host, wide, Record())
  }

  lemma {:induction false} Recorded(s: Scheme<seq<nat>, nat>, h: seq<nat>, bs: seq<byte>)
    requires s == Recorder(s.order, s.host, s.wide) && |bs| % Block(s) == 0
    ensures Blocks(Process(s), Block(s), h, bs) == h + WordsOf(s.order, WordSize(s), bs)
    decreases |bs|
  {
    hide FromBytes, WordsOf;
    var block, size := Block(s), WordSize(s);
    if |bs| < block {
      SmallMod(|bs|, block);
      WordsAppend(s.order, size, [], []);
      assert bs == [] && [] + bs == [];
    } else {
      var first, rest := bs[..block], bs[block..];
      ModLess(|bs|, block);
      ModUnique(block, size, 16, 0);
      WordsAppend(s.order, size, first, rest);
      assert first + rest == bs;
      var words := WordsOf(s.order, size, first);
      assert Typed(s, words) == words;
      Recorded(s, h + words, rest);
    }
  }

  lemma {:induction false} CountOfIs(m: nat, n: nat)
    requires m > 0 && n < m * m
    ensures var c := Count(n / m, n % m); InRange(m, c) && Value(m, c) == n == n % (m * m)
  {
    WholePart(n, m);
    if n / m >= m {
      Distribute(n / m - m, m, m);
    }
    SmallMod(n, m * m);
  }

  /** The length field determines the number of bits, modulo the two-word range. */
  lemma {:induction false} FieldsDiffer(s: Scheme, n: nat, n': nat)
    requires var m := Modulus(s); 8 * n % (m * m) != 8 * n' % (m * m)
    ensures LengthField(s, n) != LengthField(s, n')
  {
    hide WordsOf, LengthField, BitCount;
    FieldValue(s, n);
    FieldValue(s, n');
  }

  /** What the words of the length field say. */
  ghost function FieldNumber(s: Scheme, field: seq<byte>): int {
    var ws := WordsOf(s.order, WordSize(s), field);
    if |ws| != 2 then 0
    else if s.order.BigEndian? then ws[0] * Modulus(s) + ws[1] else ws[1] * Modulus(s) + ws[0]
  }

  lemma {:induction false} FieldValue(s: Scheme, n: nat)
    ensures var m := Modulus(s); FieldNumber(s, LengthField(s, n)) == 8 * n % (m * m)
  {
    hide WordsOf, LengthField, BitCount;
    var m := Modulus(s);
    var k := n % (m * m);
    var c := Count(k / m, k % m);
    CountOfIs(m, k);
    ModulusIsPower(s);
    LengthWords(s, n, c);
    BitCountIsEightfold(m / 8, c);
    TwiceMod(n, m * m);
  }

  /** Two padded messages of one length are told apart by the recorder. */
  lemma {:induction false} RecorderTells(s: Scheme<seq<nat>, nat>, taken: seq<byte>, counted: nat, msg: seq<byte>)
    requires s == Recorder(s.order, s.host, s.wide) && |taken| == |msg|
    requires Closed(s, taken, counted) == OneShot(s, msg)
    ensures taken == msg && LengthField(s, counted) == LengthField(s, |msg|)
  {
    hide Blocks, WordsOf, Filler, LengthField;
    var filler, field := Filler(s, |msg|), LengthField(s, counted);
    var a, b := taken + filler + field, Padded(s, msg);
    PaddedIsWhole(s, msg);
    assert |a| == |b|;
    Recorded(s, s.start, a);
    Recorded(s, s.start, b);
    var x, y := WordsOf(s.order, WordSize(s), a), WordsOf(s.order, WordSize(s), b);
    assert s.start + x == x && s.start + y == y;
    WholeWords(|a|, WordSize(s));
    WordsInjective(s.order, WordSize(s), a, b);
    assert taken == a[..|msg|] && msg == b[..|msg|];
    assert field == a[|a| - |field|..] && LengthField(s, |msg|) == b[|a| - |field|..];
  }

  lemma {:induction false} WholeWords(n: nat, size: nat)
    requires size > 0 && n % (16 * size) == 0
    ensures n % size == 0
  {
    var q := n / (16 * size);
    WholePart(n, 16 * size);
    Associate(q, 16, size);
    ModUnique(n, size, q * 16, 0);
  }

  /** The source's hash of the chunks is the hash of the whole message, whatever the
      compression function is. */
  ghost predicate AlwaysRight(order: Order, host: Order, wide: bool, chunks: seq<seq<byte>>) {
    forall compress: (seq<nat>, seq<nat>) -> seq<nat> ::
      var s := Plain(order, host, wide, compress);
      ChunksHash(s, chunks) == OneShot(s, Concat(chunks))
  }

  /** That is so exactly when the message is taken in as it is and the number of bits is
      right modulo the two-word range; for messages below the standard's limit on the number
      of bits, exactly when every chunk's length fits in a word. */
  lemma {:induction false} ChunksHashIff(order: Order, host: Order, wide: bool, chunks: seq<seq<byte>>)
    ensures var s := Recorder(order, host, wide);
      var m, n := Modulus(s), |Concat(chunks)|;
      && (AlwaysRight(order, host, wide, chunks) <==>
            && TakeAll(Block(s), m, SwapSize(s), chunks) == Concat(chunks)
            && 8 * CountAll(m, chunks) % (m * m) == 8 * n % (m * m))
      && (8 * n < m * m ==> (AlwaysRight(order, host, wide, chunks) <==> AllBelow(m, chunks)))
  {
    hide Blocks, Filler, LengthField, WordsOf, TakeAll, Concat, AllBelow, CountAll;
    var s := Recorder(order, host, wide);
    var m, msg := Modulus(s), Concat(chunks);
    var taken, counted := TakeAll(Block(s), m, SwapSize(s), chunks), CountAll(m, chunks);
    if taken == msg && 8 * counted % (m * m) == 8 * |msg| % (m * m) {
      forall compress: (seq<nat>, seq<nat>) -> seq<nat>
        ensures var s := Plain(order, host, wide, compress); ChunksHash(s, chunks) == OneShot(s, msg)
      {
        SameNumberSameHash(Plain(order, host, wide, compress), chunks);
      }
    }
    if AlwaysRight(order, host, wide, chunks) {
      assert ChunksHash(s, chunks) == OneShot(s, msg);
      RecorderTells(s, taken, counted, msg);
      if 8 * counted % (m * m) != 8 * |msg| % (m * m) {
        FieldsDiffer(s, counted, |msg|);
      }
    }
    AllCountedIff(m, chunks);
    if 8 * |msg| < m * m {
      SmallMod(8 * |msg|, m * m);
      SmallMod(8 * counted, m * m);
      if AllBelow(m, chunks) {
        ShortChunksAreTaken(Block(s), m, SwapSize(s), chunks);
      }
    }
  }

  /** The length field takes the number of bits modulo the two-word range. */
  lemma {:induction false} SameNumberSameHash<H, W>(s: Scheme<H, W>, chunks: seq<seq<byte>>)
    requires TakeAll(Block(s), Modulus(s), SwapSize(s), chunks) == Concat(chunks)
    requires var m := Modulus(s); 8 * CountAll(m, chunks) % (m * m) == 8 * |Concat(chunks)| % (m * m)
    ensures ChunksHash(s, chunks) == OneShot(s, Concat(chunks))
  {
    hide Blocks, Filler, TakeAll, Concat, CountAll, ToBytes;
  }

  /** A single chunk of 2^32 bytes is hashed wrongly with 32-bit words. */
  lemma {:induction false} LongChunkHashesWrong(order: Order, host: Order)
    ensures !AlwaysRight(order, host, false, [Zeros(0x1_0000_0000)])
  {
    hide AlwaysRight;
    var chunks := [Zeros(0x1_0000_0000)];
    assert chunks[..0] == [] && |Concat(chunks)| == 0x1_0000_0000;
    ChunksHashIff(order, host, false, chunks);
    assert |chunks[0]| == 0x1_0000_0000;
  }

  method HashChunks<H, W>(scheme: Scheme<H, W>, chunks: seq<seq<byte>>) returns (h: H)
    ensures h == ChunksHash(scheme, chunks)
    ensures AllBelow(Modulus(scheme), chunks) ==> h == OneShot(scheme, Concat(chunks))
  {
    hide Take, AllBelow;
    var c := new Context(scheme);
    ghost var block, m, word := Block(scheme), Modulus(scheme), SwapSize(scheme);
    for i := 0 to |chunks|
      invariant c.scheme == scheme && fresh(c) && fresh(c.buf)
      invariant c.Holds(TakeAll(block, m, word, chunks[..i]), CountAll(m, chunks[..i]))
    {
      assert chunks[..i + 1][..i] == chunks[..i];
      c.Update(chunks[i], TakeAll(block, m, word, chunks[..i]), CountAll(m, chunks[..i]));
    }
    assert chunks[..|chunks|] == chunks;
    c.Finish(TakeAll(block, m, word, chunks), CountAll(m, chunks));
    h := c.hash;
    ShortChunksHash(scheme, chunks);
  }
}
