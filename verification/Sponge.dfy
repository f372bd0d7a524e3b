/** SHA-3 as a stream: the position in the block is the only count kept, and the last
    block gets the suffix and the padding in place. The permutation is a parameter. */
module Sponge {
  import opened ByteType
  import opened Absorb
  import opened Words
  import opened Lanes

  /** 25 lanes. */
  type State = s: seq<Lane> | |s| == 25 witness seq(25, _ => Lane(0))

  datatype Variant = Sha3_224 | Sha3_256 | Sha3_384 | Sha3_512

  function Digest(v: Variant): nat {
    match v
    case Sha3_224 => 224
    case Sha3_256 => 256
    case Sha3_384 => 384
    case Sha3_512 => 512
  }

  /** The rate in bytes. */
  function BlockSize(v: Variant): (block: nat)
    ensures 72 <= block <= 144 && block % 8 == 0
  {
    (1600 - Digest(v) * 2) / 8
  }

  /** Table 3 of FIPS 202: the rates in bytes, and the digests in bits. */
  lemma {:induction false} RatesAreStandard(v: Variant)
    ensures BlockSize(Sha3_224) == 144 && BlockSize(Sha3_256) == 136
    ensures BlockSize(Sha3_384) == 104 && BlockSize(Sha3_512) == 72
    ensures Digest(v) in {224, 256, 384, 512} && 8 * BlockSize(v) + 2 * Digest(v) == 1600
  {
  }

  function LaneOf(n: nat): Lane {
    Lane(if n < 0x1_0000_0000_0000_0000 then n as bv64 else 0)
  }

  /** The block's lanes are added to the first lanes of the state. */
  function Xored(s: State, ws: seq<nat>): State
    requires |ws| <= 25
  {
    seq(25, i requires 0 <= i < 25 => if i < |ws| then Xor(s[i], LaneOf(ws[i])) else s[i])
  }

  function Process(permute: State -> State): (State, seq<byte>) -> State {
    (s, block) =>
      var ws := WordsOf(LittleEndian, 8, block);
      permute(if |ws| <= 25 then Xored(s, ws) else s)
  }

  function Start(): State {
    seq(25, _ => Lane(0))
  }

  // ---- the padding ----

  /** Bits of a byte, the least significant first. */
  function BitsOf(b: byte): seq<bool> {
    [b % 2 == 1, b / 2 % 2 == 1, b / 4 % 2 == 1, b / 8 % 2 == 1,
     b / 16 % 2 == 1, b / 32 % 2 == 1, b / 64 % 2 == 1, b / 128 % 2 == 1]
  }

  function Bits(bs: seq<byte>): (bits: seq<bool>)
    ensures |bits| == 8 * |bs|
  {
    if bs == [] then [] else BitsOf(bs[0]) + Bits(bs[1..])
  }

  function Falses(k: nat): seq<bool> {
    seq(k, _ => false)
  }

  /** A one, the fewest zeros, and a one, to reach a multiple of the rate. */
  function Pad101(rate: nat, n: int): seq<bool>
    requires rate > 0
  {
    [true] + Falses((-n - 2) % rate) + [true]
  }

  /** The message with the hash functions' two-bit suffix, padded; in bits. */
  function PaddedBits(v: Variant, msg: seq<byte>): seq<bool> {
    var suffixed := Bits(msg) + [false, true];
    suffixed + Pad101(8 * BlockSize(v), |suffixed|)
  }

  /** The source's padding of the last block: k bytes are left. */
  function PadBytes(k: nat): seq<byte>
    requires k > 0
  {
    if k == 1 then [0x86] else [0x06] + Zeros(k - 2) + [0x80]
  }

  function Padded(v: Variant, msg: seq<byte>): seq<byte> {
    msg + PadBytes(BlockSize(v) - |msg| % BlockSize(v))
  }

  lemma {:induction false} BitsAppend(a: seq<byte>, b: seq<byte>)
    ensures Bits(a + b) == Bits(a) + Bits(b)
  {
    hide BitsOf;
    if a == [] {
      assert a + b == b;
    } else {
      BitsAppend(a[1..], b);
      assert (a + b)[1..] == a[1..] + b;
      Third(BitsOf(a[0]), Bits(a[1..]), Bits(b));
    }
  }

  lemma {:induction false} ZeroBits(k: nat)
    ensures Bits(Zeros(k)) == Falses(8 * k)
  {
    if k > 0 {
      ZeroBits(k - 1);
      assert Zeros(k)[1..] == Zeros(k - 1);
      assert BitsOf(0) == Falses(8);
      assert Falses(8) + Falses(8 * (k - 1)) == Falses(8 * k);
    }
  }

  lemma {:induction false} OneByte(b: byte)
    ensures Bits([b]) == BitsOf(b)
  {
    assert [b][1..] == [];
  }

  lemma {:induction false} FalsesAppend(j: nat, k: nat)
    ensures Falses(j) + Falses(k) == Falses(j + k)
  {
  }

  lemma {:induction false} PadBits(k: nat)
    requires k > 0
    ensures Bits(PadBytes(k)) == [false, true] + ([true] + Falses(8 * k - 4) + [true])
  {
    if k == 1 {
      OneByte(0x86);
    } else {
      LongPadBits(k);
      PadEnds(8 * (k - 2));
    }
  }

  lemma {:induction false} LongPadBits(k: nat)
    requires k > 1
    ensures Bits(PadBytes(k)) == BitsOf(0x06) + Falses(8 * (k - 2)) + BitsOf(0x80)
  {
    hide Bits, BitsOf, Falses, Zeros;
    OneByte(0x06);
    OneByte(0x80);
    ZeroBits(k - 2);
    BitsAppend([0x06] + Zeros(k - 2), [0x80]);
    BitsAppend([0x06], Zeros(k - 2));
  }

  lemma {:induction false} PadEnds(k: nat)
    ensures BitsOf(0x06) + Falses(k) + BitsOf(0x80) == [false, true] + ([true] + Falses(k + 12) + [true])
  {
    assert BitsOf(0x06) == [false, true] + [true] + Falses(5);
    assert BitsOf(0x80) == Falses(7) + [true];
    Regroup([false, true], [true], Falses(5), Falses(k), Falses(7));
    FalsesAppend(5, k);
    FalsesAppend(5 + k, 7);
  }

  lemma {:induction false} Regroup(a: seq<bool>, b: seq<bool>, x: seq<bool>, y: seq<bool>, z: seq<bool>)
    ensures a + b + x + y + (z + b) == a + (b + (x + y + z) + b)
  {
  }

  /** How many zeros the standard asks for, when k bytes of the block are left. */
  lemma {:induction false} GapBits(block: nat, n: nat, k: nat)
    requires block > 0 && k == block - n % block
    ensures (-(8 * n + 2) - 2) % (8 * block) == 8 * k - 4
    ensures (n + k) % block == 0
  {
    assert n == n / block * block + n % block;
    Associate(n / block, block, 8);
    Associate(n / block, 8, block);
    Distribute(n / block, 1, block);
    Distribute(-(n / block), -1, 8 * block);
    ModUnique(-(8 * n + 2) - 2, 8 * block, -(n / block) - 1, 8 * k - 4);
    ModUnique(n + k, block, n / block + 1, 0);
  }

  /** The bytes that the source writes are the standard's bits. */
  lemma {:induction false} PaddingIsStandard(v: Variant, msg: seq<byte>)
    ensures Bits(Padded(v, msg)) == PaddedBits(v, msg)
    ensures |Padded(v, msg)| % BlockSize(v) == 0
  {
    hide Bits, Falses, PadBytes, BlockSize;
    var k := BlockSize(v) - |msg| % BlockSize(v);
    PadBits(k);
    BitsAppend(msg, PadBytes(k));
    GapBits(BlockSize(v), |msg|, k);
    Third(Bits(msg), [false, true], [true] + Falses(8 * k - 4) + [true]);
    PadSize(k);
  }

  lemma {:induction false} PadSize(k: nat)
    requires k > 0
    ensures |PadBytes(k)| == k
  {
  }

  lemma {:induction false} Third(a: seq<bool>, b: seq<bool>, c: seq<bool>)
    ensures a + (b + c) == a + b + c
  {
  }

  /** The hash of a whole message: absorb the blocks of the padded message. */
  ghost function OneShot(v: Variant, permute: State -> State, msg: seq<byte>): State {
    Blocks(Process(permute), BlockSize(v), Start(), Padded(v, msg))
  }

  // ---- the context ----

  function Or(a: byte, b: byte): byte {
    ((a as bv8) | (b as bv8)) as byte
  }

  lemma {:induction false} OrPads()
    ensures Or(0, 0x06) == 0x06 && Or(0, 0x80) == 0x80 && Or(0x06, 0x80) == 0x86
  {
  }

  class Context {
    const variant: Variant
    const permute: State -> State
    const buf: array<byte>
    var hash: State
    var len: nat

    /** The context has absorbed msg. */
    ghost predicate Absorbed(msg: seq<byte>)
      reads this, buf
    {
      var block := BlockSize(variant);
      && buf.Length == 200
      && len == |msg| % block && buf[..len] == Rest(block, msg)
      && hash == Blocks(Process(permute), block, Start(), msg)
    }

    constructor (variant: Variant, permute: State -> State)
      ensures Absorbed([]) && this.variant == variant && this.permute == permute && fresh(buf)
    {
      this.variant := variant;
      this.permute := permute;
      buf := new byte[200](_ => 0);
      hash, len := Start(), 0;
    }

    method Reset()
      requires buf.Length == 200
      modifies this, buf
      ensures Absorbed([])
    {
      forall i | 0 <= i < buf.Length {
        buf[i] := 0;
      }
      hash, len := Start(), 0;
    }

    method Update(data: seq<byte>, ghost msg: seq<byte>)
      requires Absorbed(msg) && len + |data| < 0x1_0000_0000_0000_0000
      modifies this, buf
      ensures Absorbed(msg + data)
    {
      hide BlockSize, Blocks, Process, Rest, FillTestIsRight;
      var block, left := BlockSize(variant), len;
      SmallMod(len + |data|, 0x1_0000_0000_0000_0000);
      len := (len + |data|) % 0x1_0000_0000_0000_0000 % block;
      SumMod(|msg|, |data|, block);
      ShortChunkTest(block, 0x1_0000_0000_0000_0000, left, |data|);
      hash := Absorb.Update(Process(permute), block, 0x1_0000_0000_0000_0000, 0, buf, left, hash, data, Start(), msg);
    }

    method Finish(ghost msg: seq<byte>)
      requires Absorbed(msg)
      modifies this, buf
      ensures hash == OneShot(variant, permute, msg)
    {
      var block := BlockSize(variant);
      ghost var rest := Rest(block, msg);
      Copy(buf, len, Zeros(block - len));
      OrPads();
      buf[len] := Or(buf[len], 0x06);
      buf[block - 1] := Or(buf[block - 1], 0x80);
      ghost var pad := PadBytes(block - len);
      assert buf[..block] == rest + pad;
      BlocksSplit(Process(permute), block, Start(), msg, pad);
      BlocksFill(Process(permute), block, hash, rest, pad);
      assert pad[..block - len] == pad && pad[block - len..] == [];
      hash := Process(permute)(hash, buf[..block]);
    }
  }

  // ---- any chunks give the hash of the whole message ----

  method HashChunks(variant: Variant, permute: State -> State, chunks: seq<seq<byte>>) returns (h: State)
    requires forall i | 0 <= i < |chunks| :: |chunks[i]| + 200 < 0x1_0000_0000_0000_0000
    ensures h == OneShot(variant, permute, Concat(chunks))
  {
    var c := new Context(variant, permute);
    for i := 0 to |chunks|
      invariant c.variant == variant && c.permute == permute && fresh(c) && fresh(c.buf)
      invariant c.Absorbed(Concat(chunks[..i]))
    {
      assert chunks[..i + 1][..i] == chunks[..i];
      c.Update(chunks[i], Concat(chunks[..i]));
    }
    assert chunks[..|chunks|] == chunks;
    c.Finish(Concat(chunks));
    h := c.hash;
  }
}
