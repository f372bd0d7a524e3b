/** Bytes, as the hashes and the shared buffer handle them. */
module ByteType {
  type byte = x: int | 0 <= x < 256
}

/** Splitting a message into blocks, and the block loop that every hash's update
    function runs: fill up the buffered block, process whole blocks, keep the rest. */
module Absorb {
  import opened ByteType

  /** The message that the chunks make up. */
  function Concat(chunks: seq<seq<byte>>): seq<byte> {
    if chunks == [] then [] else Concat(chunks[..|chunks| - 1]) + chunks[|chunks| - 1]
  }

  function Zeros(k: nat): seq<byte> {
    seq(k, _ => 0)
  }

  /** The whole blocks of the message, processed in order; a rest shorter than a block
      is not looked at. */
  ghost function Blocks<H>(f: (H, seq<byte>) -> H, block: nat, h: H, msg: seq<byte>): H
    requires block > 0
    decreases |msg|
  {
    if |msg| < block then h else Blocks(f, block, f(h, msg[..block]), msg[block..])
  }

  /** What whole blocks leave of a length, and the whole blocks themselves. */
  function Left(block: nat, n: nat): (k: nat)
    requires block > 0
    ensures k <= n && k < block
  {
    n % block
  }

  function Whole(block: nat, n: nat): nat
    requires block > 0
  {
    n - Left(block, n)
  }

  /** The rest after the last whole block. */
  ghost function Rest(block: nat, msg: seq<byte>): (r: seq<byte>)
    requires block > 0
    ensures |r| == Left(block, |msg|)
    decreases |msg|
  {
    if |msg| < block then msg
    else
      assert |msg| % block == (|msg| - block) % block by { ModLess(|msg|, block); }
      Rest(block, msg[block..])
  }

  lemma {:induction false} ModLess(n: nat, block: nat)
    requires 0 < block <= n
    ensures (n - block) % block == n % block
  {
    assert n == n / block * block + n % block;
    ModUnique(n - block, block, n / block - 1, n % block);
  }

  lemma {:induction false} ModUnique(n: int, block: nat, q: int, r: nat)
    requires 0 < block && n == q * block + r && r < block
    ensures n % block == r && n / block == q
  {
    assert n == n / block * block + n % block;
    assert (n / block - q) * block == r - n % block;
    Multiple(n / block - q, block);
  }

  lemma {:induction false} Multiple(d: int, block: int)
    requires block > 0
    ensures d > 0 ==> d * block >= block
    ensures d < 0 ==> d * block <= -block
  {
  }

  /** Processing a message in two goes: the second starts with the first one's rest. */
  lemma {:induction false} BlocksSplit<H>(f: (H, seq<byte>) -> H, block: nat, h: H, a: seq<byte>, b: seq<byte>)
    requires block > 0
    ensures Blocks(f, block, h, a + b) == Blocks(f, block, Blocks(f, block, h, a), Rest(block, a) + b)
    ensures Rest(block, a + b) == Rest(block, Rest(block, a) + b)
    decreases |a|
  {
    if |a| >= block {
      BlocksSplit(f, block, f(h, a[..block]), a[block..], b);
      assert (a + b)[..block] == a[..block];
      assert (a + b)[block..] == a[block..] + b;
    }
  }

  /** The buffered rest, completed to a block. */
  lemma {:induction false} BlocksFill<H>(f: (H, seq<byte>) -> H, block: nat, h: H, rest: seq<byte>, b: seq<byte>)
    requires |rest| < block && |rest| + |b| >= block
    ensures var fill := block - |rest|;
      && Blocks(f, block, h, rest + b) == Blocks(f, block, f(h, rest + b[..fill]), b[fill..])
      && Rest(block, rest + b) == Rest(block, b[fill..])
  {
    var fill := block - |rest|;
    assert (rest + b)[..block] == rest + b[..fill];
    assert (rest + b)[block..] == b[fill..];
  }

  /** The bytes of each word in the other order; no swapping for word size 0. A host of
      the other byte order does this to a block in its buffer before it processes it. */
  function Swapped(word: nat, bs: seq<byte>): (r: seq<byte>)
    ensures |r| == |bs|
    decreases |bs|
  {
    if word == 0 || |bs| < word then bs
    else seq(word, i requires 0 <= i < word => bs[word - 1 - i]) + Swapped(word, bs[word..])
  }

  lemma {:induction false} SwappedZeros(word: nat, n: nat)
    ensures Swapped(word, Zeros(n)) == Zeros(n)
  {
    if word == 0 || n < word {
    } else {
      SwappedZeros(word, n - word);
      assert Zeros(n)[word..] == Zeros(n - word);
    }
  }

  /** The block in the buffer is completed and processed; it stays there, swapped. */
  method ProcessBlock<H>(f: (H, seq<byte>) -> H, block: nat, word: nat, buf: array<byte>, at: nat, h: H,
                         part: seq<byte>)
    returns (h': H)
    requires at + |part| == block <= buf.Length
    modifies buf
    ensures h' == f(h, old(buf[..at]) + part) && buf[..block] == Swapped(word, old(buf[..at]) + part)
  {
    hide Swapped;
    Copy(buf, at, part);
    h' := f(h, buf[..block]);
    Copy(buf, 0, Swapped(word, buf[..block]));
  }

  lemma {:induction false} NextBlock<H>(f: (H, seq<byte>) -> H, block: nat, h: H, data: seq<byte>, pos: nat)
    requires block > 0 && pos + block <= |data|
    ensures Blocks(f, block, h, data[pos..]) == Blocks(f, block, f(h, data[pos..pos + block]), data[pos + block..])
    ensures Rest(block, data[pos..]) == Rest(block, data[pos + block..])
  {
    var todo := data[pos..];
    assert todo[..block] == data[pos..pos + block] && todo[block..] == data[pos + block..];
  }

  /** The whole blocks of data, each copied to the buffer and processed. */
  method WholeBlocks<H>(f: (H, seq<byte>) -> H, block: nat, word: nat, buf: array<byte>, h: H, data: seq<byte>)
    returns (h': H, pos: nat)
    requires 0 < block <= buf.Length
    modifies buf
    ensures pos <= |data| && |data| - pos < block
    ensures h' == Blocks(f, block, h, data) && data[pos..] == Rest(block, data)
    ensures |data| < block ==> pos == 0 && buf[..] == old(buf[..])
    ensures |data| >= block ==> pos >= block && buf[..block] == Swapped(word, data[pos - block..pos])
  {
    hide Blocks, Rest, Swapped;
    h', pos := h, 0;
    assert data[0..] == data;
    while |data| - pos >= block
      invariant pos <= |data|
      invariant Blocks(f, block, h', data[pos..]) == Blocks(f, block, h, data)
      invariant Rest(block, data[pos..]) == Rest(block, data)
      invariant |data| < block ==> pos == 0 && buf[..] == old(buf[..])
      invariant pos != 0 ==> pos >= block && buf[..block] == Swapped(word, data[pos - block..pos])
    {
      NextBlock(f, block, h', data, pos);
      assert buf[..0] + data[pos..pos + block] == data[pos..pos + block];
      h' := ProcessBlock(f, block, word, buf, 0, h', data[pos..pos + block]);
      pos := pos + block;
    }
    ShortBlocks(f, block, h', data[pos..]);
  }

  /** The source's test whether the chunk fills the buffered block up, made on the length
      cast to a word, answers as the true length would; it is not made on an empty buffer. */
  predicate FillTestIsRight(block: nat, modulus: nat, left: nat, len: nat)
    requires left < block
  {
    modulus > 0 && (left == 0 || (len % modulus >= block - left <==> len >= block - left))
  }

  lemma {:induction false} ShortChunkTest(block: nat, modulus: nat, left: nat, len: nat)
    requires left < block && len < modulus
    ensures FillTestIsRight(block, modulus, left, len)
  {
    SmallMod(len, modulus);
  }

  /** The source's casts are harmless, or they are to a multiple of the block. */
  predicate Takes(block: nat, modulus: nat, left: nat, len: nat) {
    left < block && modulus > 0 && (modulus % block == 0 || FillTestIsRight(block, modulus, left, len))
  }

  /** What the test's answers say of the true length. */
  lemma {:induction false} TestSays(block: nat, modulus: nat, left: nat, len: nat)
    requires Takes(block, modulus, left, len)
    ensures left != 0 && len % modulus >= block - left ==>
      FillTestIsRight(block, modulus, left, len) && len >= block - left
    ensures left != 0 && len % modulus < block - left && FillTestIsRight(block, modulus, left, len) ==>
      len < block - left
    ensures left == 0 ==> FillTestIsRight(block, modulus, left, len)
  {
    assert len % modulus <= len;
  }

  /** The fill test only errs on a chunk of the modulus or more, whose last bytes still
      fit behind the buffered ones. */
  lemma {:induction false} TestErrs(block: nat, modulus: nat, left: nat, len: nat)
    requires Takes(block, modulus, left, len) && !FillTestIsRight(block, modulus, left, len)
    ensures 0 < left && left + Left(block, len) < block <= Whole(block, len)
  {
    if len < modulus {
      ShortChunkTest(block, modulus, left, len);
    } else {
      var k, q, r := modulus / block, len / modulus, len % modulus;
      assert len == q * (k * block) + r;
      assert q * (k * block) == q * k * block;
      ModUnique(len, block, q * k, r);
      assert q * k >= 1;
      Multiple(q * k, block);
    }
  }

  /** The buffered bytes, at the end of msg, are never processed; in their place the last
      whole block of data leaves its first bytes, swapped as the host swaps. */
  function Overwritten(block: nat, word: nat, left: nat, whole: nat, msg: seq<byte>, data: seq<byte>): (r: seq<byte>)
    requires left <= |msg| && left <= block <= whole <= |data|
    ensures |r| == |msg + data|
  {
    msg[..|msg| - left] + data[..whole] + (Swapped(word, data[whole - block..whole])[..left] + data[whole..])
  }

  /** What the update function takes in: the chunk behind the message, where the fill test
      is right. */
  function Take(block: nat, modulus: nat, word: nat, msg: seq<byte>, data: seq<byte>): (r: seq<byte>)
    requires block > 0 && Takes(block, modulus, Left(block, |msg|), |data|)
    ensures |r| == |msg + data|
  {
    var left := Left(block, |msg|);
    if FillTestIsRight(block, modulus, left, |data|) then msg + data
    else
      TestErrs(block, modulus, left, |data|);
      Overwritten(block, word, left, Whole(block, |data|), msg, data)
  }

  /** Every message and chunk of these lengths is taken in as it is, exactly when the fill
      test is right. */
  lemma {:induction false} TakesAllIff(block: nat, modulus: nat, word: nat, left: nat, len: nat)
    requires block > 0 && Takes(block, modulus, left, len)
    ensures FillTestIsRight(block, modulus, left, len) <==>
      forall msg: seq<byte>, data: seq<byte> | |msg| % block == left && |data| == len ::
        Take(block, modulus, word, msg, data) == msg + data
  {
    if !FillTestIsRight(block, modulus, left, len) {
      TestErrs(block, modulus, left, len);
      var msg: seq<byte>, data := seq(left, _ => 1), Zeros(len);
      SmallMod(left, block);
      assert Take(block, modulus, word, msg, data)[0] == 0 && (msg + data)[0] == 1;
    }
  }

  /** A rest shorter than a block, behind whole blocks. */
  lemma {:induction false} WholeThen<H>(f: (H, seq<byte>) -> H, block: nat, h: H, a: seq<byte>, rest: seq<byte>)
    requires block > 0 && |a| % block == 0 && |rest| < block
    ensures Blocks(f, block, h, a + rest) == Blocks(f, block, h, a) && Rest(block, a + rest) == rest
    ensures Rest(block, a) == []
  {
    BlocksSplit(f, block, h, a, rest);
    assert Rest(block, a) + rest == rest;
  }

  lemma {:induction false} AtWhole<H>(f: (H, seq<byte>) -> H, block: nat, h: H, msg: seq<byte>, k: nat)
    requires block > 0 && k == Whole(block, |msg|)
    ensures k % block == 0 && Rest(block, msg) == msg[k..] && Rest(block, msg[..k]) == []
    ensures Blocks(f, block, h, msg) == Blocks(f, block, h, msg[..k])
  {
    assert k == |msg| / block * block;
    ModUnique(k, block, |msg| / block, 0);
    WholeThen(f, block, h, msg[..k], msg[k..]);
    assert msg[..k] + msg[k..] == msg;
  }

  lemma {:induction false} SumOfWhole(x: nat, y: nat, block: nat)
    requires block > 0 && x % block == 0 && y % block == 0
    ensures (x + y) % block == 0
  {
    assert x + y == (x / block + y / block) * block;
    ModUnique(x + y, block, x / block + y / block, 0);
  }

  /** Where the fill test errs, only the whole blocks of message and chunk are processed. */
  lemma {:induction false} OverwrittenBlocks<H>(f: (H, seq<byte>) -> H, block: nat, word: nat, left: nat, whole: nat,
                                                h: H, msg: seq<byte>, data: seq<byte>)
    requires block > 0 && left == Left(block, |msg|) && whole == Whole(block, |data|)
    requires left + (|data| - whole) < block <= whole
    ensures var r := Overwritten(block, word, left, whole, msg, data);
      && Blocks(f, block, h, r) == Blocks(f, block, Blocks(f, block, h, msg), data)
      && Rest(block, r) == Swapped(word, data[whole - block..whole])[..left] + data[whole..]
      && Rest(block, data) == data[whole..]
  {
    hide Blocks, Rest, Left;
    var h1 := Blocks(f, block, h, msg);
    AtWhole(f, block, h, msg, |msg| - left);
    AtWhole(f, block, h1, data, whole);
    var a, d := msg[..|msg| - left], data[..whole];
    var tail := Swapped(word, data[whole - block..whole])[..left] + data[whole..];
    BlocksSplit(f, block, h, a, d);
    assert [] + d == d;
    SumOfWhole(|a|, |d|, block);
    WholeThen(f, block, h, a + d, tail);
  }

  /** What is left at the start of the buffer by the whole blocks of data. */
  function Under(block: nat, word: nat, at: nat, under: seq<byte>, data: seq<byte>): seq<byte>
    requires block > 0 && at <= block && at == |under|
  {
    if |data| < block then under
    else
      var whole := Whole(block, |data|);
      WholeIsBlocks(block, |data|);
      Swapped(word, data[whole - block..whole])[..at]
  }

  lemma {:induction false} WholeIsBlocks(block: nat, n: nat)
    requires 0 < block <= n
    ensures Whole(block, n) >= block
  {
    assert Whole(block, n) == n / block * block;
    Multiple(n / block, block);
  }

  lemma {:induction false} NothingUnder(block: nat, word: nat, under: seq<byte>, data: seq<byte>)
    requires block > 0 && under == []
    ensures Under(block, word, 0, under, data) == []
  {
  }

  /** The whole blocks of data, and the rest of it behind the first bytes of the buffer. */
  method Bulk<H>(f: (H, seq<byte>) -> H, block: nat, word: nat, buf: array<byte>, at: nat, h: H, data: seq<byte>)
    returns (h': H)
    requires 0 < block <= buf.Length && at + Left(block, |data|) <= block
    modifies buf
    ensures h' == Blocks(f, block, h, data)
    ensures buf[..at + Left(block, |data|)] == Under(block, word, at, old(buf[..at]), data) + Rest(block, data)
  {
    hide Blocks, Rest, Left;
    var pos;
    h', pos := WholeBlocks(f, block, word, buf, h, data);
    AtWhole(f, block, h, data, Whole(block, |data|));
    assert pos == Whole(block, |data|);
    assert buf[..at] == Under(block, word, at, old(buf[..at]), data);
    Copy(buf, at, data[pos..]);
    assert at + Left(block, |data|) == at + |data[pos..]|;
  }

  /** The update function: buf holds the rest of msg, h the result of its whole blocks;
      afterwards so for what was taken in. The test whether the buffered block fills up
      sees the length reduced by the modulus, as the source's cast does. */
  method Update<H>(f: (H, seq<byte>) -> H, block: nat, modulus: nat, word: nat, buf: array<byte>, left: nat, h: H,
                   data: seq<byte>, ghost h0: H, ghost msg: seq<byte>) returns (h': H)
    requires 0 < block <= buf.Length && Takes(block, modulus, left, |data|)
    requires left == Left(block, |msg|) && buf[..left] == Rest(block, msg) && h == Blocks(f, block, h0, msg)
    modifies buf
    ensures buf[..Left(block, |msg + data|)] == Rest(block, Take(block, modulus, word, msg, data))
    ensures h' == Blocks(f, block, h0, Take(block, modulus, word, msg, data))
  {
    hide Blocks, Rest, FillTestIsRight, Left, Swapped;
    var at, toFill, todo := left, block - left, data;
    h' := h;
    ghost var rest, right := Rest(block, msg), FillTestIsRight(block, modulus, left, |data|);
    TestSays(block, modulus, left, |data|);
    if right {
      BlocksSplit(f, block, h0, msg, data);
    } else {
      TestErrs(block, modulus, left, |data|);
      OverwrittenBlocks(f, block, word, left, Whole(block, |data|), h0, msg, data);
    }
    if left != 0 && |data| % modulus >= toFill {
      BlocksFill(f, block, h, rest, data);
      h' := ProcessBlock(f, block, word, buf, left, h', data[..toFill]);
      at, todo := 0, data[toFill..];
    } else if right {
      if left == 0 {
        assert rest + data == data;
      } else {
        ShortBlocks(f, block, h, rest + data);
        ShortBlocks(f, block, h, data);
      }
    }
    ghost var under := buf[..at];
    h' := Bulk(f, block, word, buf, at, h', todo);
    ghost var taken := Take(block, modulus, word, msg, data);
    if !right {
      assert Under(block, word, at, under, todo) + Rest(block, todo) == Rest(block, taken);
    } else if at == 0 {
      NothingUnder(block, word, under, todo);
      assert [] + Rest(block, todo) == Rest(block, todo) == Rest(block, taken);
    } else {
      assert Under(block, word, at, under, todo) + Rest(block, todo) == rest + data == Rest(block, taken);
    }
  }

  // ---- chunk by chunk ----

  /** What is taken in, chunk by chunk. */
  function TakeAll(block: nat, modulus: nat, word: nat, chunks: seq<seq<byte>>): (r: seq<byte>)
    requires 0 < block && 0 < modulus && modulus % block == 0
    ensures |r| == |Concat(chunks)|
  {
    if chunks == [] then []
    else
      var n := |chunks| - 1;
      Take(block, modulus, word, TakeAll(block, modulus, word, chunks[..n]), chunks[n])
  }

  predicate AllBelow(modulus: nat, chunks: seq<seq<byte>>) {
    forall i | 0 <= i < |chunks| :: |chunks[i]| < modulus
  }

  lemma {:induction false} ShortChunksAreTaken(block: nat, modulus: nat, word: nat, chunks: seq<seq<byte>>)
    requires 0 < block && 0 < modulus && modulus % block == 0 && AllBelow(modulus, chunks)
    ensures TakeAll(block, modulus, word, chunks) == Concat(chunks)
  {
    if chunks == [] {
    } else {
      var n := |chunks| - 1;
      ShortChunksAreTaken(block, modulus, word, chunks[..n]);
      ShortChunkTest(block, modulus, |Concat(chunks[..n])| % block, |chunks[n]|);
    }
  }

  lemma {:induction false} SmallMod(n: nat, modulus: nat)
    requires n < modulus
    ensures n % modulus == n
  {
  }

  lemma {:induction false} ShortBlocks<H>(f: (H, seq<byte>) -> H, block: nat, h: H, msg: seq<byte>)
    requires |msg| < block
    ensures Blocks(f, block, h, msg) == h && Rest(block, msg) == msg
  {
  }

  /** memcpy into the buffer. */
  method Copy(buf: array<byte>, at: nat, src: seq<byte>)
    requires at + |src| <= buf.Length
    modifies buf
    ensures buf[..] == old(buf[..at]) + src + old(buf[at + |src|..])
    ensures buf[..at + |src|] == old(buf[..at]) + src
  {
    forall i | 0 <= i < |src| {
      buf[at + i] := src[i];
    }
    assert buf[..at + |src|] == old(buf[..at]) + src;
    assert buf[at + |src|..] == old(buf[at + |src|..]);
    assert buf[..] == buf[..at + |src|] + buf[at + |src|..];
  }
}
