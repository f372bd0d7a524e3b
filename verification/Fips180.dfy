/** The Secure Hash Standard's own terms, place by place: padding, blocks, words and digest
    bytes by their positions. */
module Fips180 {
  import opened ByteType
  import opened Absorb
  import opened Words

  /** Byte j of x written in size bytes, the most significant first. */
  function ByteOf(x: nat, size: nat, j: nat): byte
    requires j < size
  {
    x / Pow256(size - 1 - j) % 256
  }

  function Field(x: nat, size: nat): seq<byte> {
    seq(size, j requires 0 <= j < size => ByteOf(x, size, j))
  }

  /** Section 5.1: a one bit, the fewest zero bits, and the number of bits in two words. */
  function Padded(size: nat, msg: seq<byte>): seq<byte>
    requires size > 0
  {
    msg + [0x80] + Zeros((14 * size - 1 - |msg|) % (16 * size)) + Field(8 * |msg|, 2 * size)
  }

  /** The number in the size bytes from a place on, the most significant first. */
  function WordAt(bs: seq<byte>, at: nat, size: nat): nat
    requires at + size <= |bs|
  {
    if size == 0 then 0 else WordAt(bs, at, size - 1) * 256 + bs[at + size - 1]
  }

  /** Section 5.2: the sixteen words of a block. */
  function BlockAt(bs: seq<byte>, at: nat, size: nat): (words: seq<nat>)
    requires at + 16 * size <= |bs|
    ensures |words| == 16
  {
    seq(16, j requires 0 <= j < 16 => WordAt(bs, at + size * j, size))
  }

  /** Section 6: the compression function over the blocks, in order. */
  function Chained<H>(compress: (H, seq<nat>) -> H, start: H, bs: seq<byte>, size: nat): H
    requires size > 0
    decreases |bs|
  {
    if |bs| < 16 * size then start
    else
      var n := |bs| - 16 * size;
      compress(Chained(compress, start, bs[..n], size), BlockAt(bs, n, size))
  }

  /** The words of the hash as bytes. */
  function DigestOf(ws: seq<nat>, size: nat): seq<byte>
    requires size > 0
  {
    seq(size * |ws|, i requires 0 <= i < size * |ws| => DigestByte(ws, size, i))
  }

  function DigestByte(ws: seq<nat>, size: nat, i: nat): byte
    requires size > 0 && i < size * |ws|
  {
    Place(i, size, |ws|);
    ByteOf(ws[i / size], size, i % size)
  }

  lemma {:induction false} Place(i: nat, size: nat, n: nat)
    requires size > 0 && i < size * n
    ensures 0 <= i / size < n
  {
    assert i == i / size * size + i % size;
    if i / size >= n {
      Distribute(i / size - n, n, size);
    }
  }

  // ---- the same through words and bytes in order ----

  lemma {:induction false} ToBytesAt(x: nat, k: nat, j: nat)
    requires j < k
    ensures ToBytes(BigEndian, x, k)[j] == ByteOf(x, k, j)
    decreases k
  {
    if j < k - 1 {
      ToBytesAt(x / 256, k - 1, j);
      DivDiv(x, 256, Pow256(k - 2 - j));
    } else {
      assert Pow256(0) == 1;
    }
  }

  lemma {:induction false} ToBytesIsField(x: nat, k: nat)
    ensures ToBytes(BigEndian, x, k) == Field(x, k)
  {
    hide ByteOf, ToBytes;
    forall j | 0 <= j < k ensures ToBytes(BigEndian, x, k)[j] == Field(x, k)[j] {
      ToBytesAt(x, k, j);
    }
  }

  lemma {:induction false} FromBytesAt(bs: seq<byte>, at: nat, size: nat)
    requires at + size <= |bs|
    ensures FromBytes(BigEndian, bs[at..at + size]) == WordAt(bs, at, size)
  {
    if size > 0 {
      FromBytesAt(bs, at, size - 1);
      assert bs[at..at + size][..size - 1] == bs[at..at + size - 1];
    }
  }

  lemma {:induction false} WordsAt(bs: seq<byte>, at: nat, size: nat, n: nat)
    requires size > 0 && at + size * n == |bs|
    ensures |WordsOf(BigEndian, size, bs[at..])| == n
    ensures forall j | 0 <= j < n ::
      && 0 <= size * j && at + size * j + size <= |bs|
      && WordsOf(BigEndian, size, bs[at..])[j] == WordAt(bs, at + size * j, size)
    decreases n
  {
    hide FromBytes, WordAt;
    if n == 0 {
    } else {
      var ws, rest := WordsOf(BigEndian, size, bs[at..]), WordsOf(BigEndian, size, bs[at + size..]);
      Step(size, n);
      WordsAt(bs, at + size, size, n - 1);
      assert bs[at..][..size] == bs[at..at + size] && bs[at..][size..] == bs[at + size..];
      FromBytesAt(bs, at, size);
      assert ws == [WordAt(bs, at, size)] + rest;
      forall j | 0 <= j < n
        ensures 0 <= size * j && at + size * j + size <= |bs| && ws[j] == WordAt(bs, at + size * j, size)
      {
        if j > 0 {
          Step(size, j);
          assert ws[j] == rest[j - 1];
          assert at + size + size * (j - 1) == at + size * j;
        }
      }
    }
  }

  lemma {:induction false} Step(size: nat, n: nat)
    requires n > 0
    ensures size * n == size + size * (n - 1) && size * (n - 1) >= 0
  {
  }

  /** The words of a block, read in order. */
  lemma {:induction false} WordsAreBlock(block: seq<byte>, size: nat)
    requires size > 0 && |block| == 16 * size
    ensures WordsOf(BigEndian, size, block) == BlockAt(block, 0, size)
  {
    hide WordsOf, WordAt;
    WordsAt(block, 0, size, 16);
    assert block[0..] == block;
  }

  lemma {:induction false} WordInBlock(bs: seq<byte>, at: nat, block: seq<byte>, from: nat, size: nat)
    requires at + from + size <= |bs| && from + size <= |block|
    requires forall i | 0 <= i < |block| && at + i < |bs| :: bs[at + i] == block[i]
    ensures WordAt(bs, at + from, size) == WordAt(block, from, size)
  {
    if size > 0 {
      WordInBlock(bs, at, block, from, size - 1);
    }
  }

  lemma {:induction false} BlockInside(bs: seq<byte>, at: nat, size: nat)
    requires size > 0 && at + 16 * size == |bs|
    ensures BlockAt(bs, at, size) == BlockAt(bs[at..], 0, size)
  {
    hide WordAt;
    forall j | 0 <= j < 16 ensures BlockAt(bs, at, size)[j] == BlockAt(bs[at..], 0, size)[j] {
      WordInBlock(bs, at, bs[at..], size * j, size);
    }
  }

  /** The block loop is the chain. */
  lemma {:induction false} BlocksAreChained<H>(f: (H, seq<byte>) -> H, compress: (H, seq<nat>) -> H, start: H,
                                               bs: seq<byte>, size: nat)
    requires size > 0 && |bs| % (16 * size) == 0
    requires forall h: H, block: seq<byte> | |block| == 16 * size :: f(h, block) == compress(h, BlockAt(block, 0, size))
    ensures Blocks(f, 16 * size, start, bs) == Chained(compress, start, bs, size)
    decreases |bs|
  {
    hide BlockAt;
    var block := 16 * size;
    if |bs| < block {
    } else {
      var n := |bs| - block;
      var front, last := bs[..n], bs[n..];
      ModLess(|bs|, block);
      BlocksAreChained(f, compress, start, front, size);
      BlocksSplit(f, block, start, front, last);
      assert front + last == bs;
      WholeThen(f, block, start, front, []);
      assert Rest(block, front) + last == last && last[..block] == last && |last[block..]| == 0;
      BlockInside(bs, n, size);
    }
  }
}
