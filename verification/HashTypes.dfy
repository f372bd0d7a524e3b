/** The hash types that the library offers, with the standards' compression functions:
    what the wrapper's theorem says of each. */
module HashTypes {
  import opened ByteType
  import opened Absorb
  import opened Words
  import opened CryptoHash
  import CountedHash
  import Fips180
  import Sponge
  import Sha1
  import Sha2
  import Sha256
  import Sha512

  /** The bytes of the hash words, most significant byte first. */
  function WordBytes(ws: seq<nat>, size: nat): (bs: seq<byte>)
    ensures |bs| == size * |ws|
  {
    if ws == [] then []
    else WordBytes(ws[..|ws| - 1], size) + ToBytes(BigEndian, ws[|ws| - 1], size)
  }

  function Sha1Step(h: Sha1.Hash, ws: seq<Sha1.Word>): Sha1.Hash {
    if |ws| == 16 then Sha1.Compress(h, ws) else h
  }

  function Sha1Word(n: nat): Sha1.Word {
    n % 0x1_0000_0000
  }

  function Sha1Start(): Sha1.Hash {
    [0x6745_2301, 0xEFCD_AB89, 0x98BA_DCFE, 0x1032_5476, 0xC3D2_E1F0]
  }

  function Sha1Type(host: Order): Kind<Sha1.Hash, Sha1.Word> {
    Counted(CountedHash.Scheme(BigEndian, host, false, Sha1Start(), Sha1Word, Sha1Step), h => WordBytes(h, 4))
  }

  function Sha256Step(h: Sha2.Hash, ws: seq<nat>): Sha2.Hash {
    if |ws| == 16 then Sha2.Compress(Sha256.StandardOps(), h, ws) else h
  }

  function Sha256Start(is224: bool): Sha2.Hash {
    if is224 then
      [0xC105_9ED8, 0x367C_D507, 0x3070_DD17, 0xF70E_5939, 0xFFC0_0B31, 0x6858_1511, 0x64F9_8FA7, 0xBEFA_4FA4]
    else
      [0x6A09_E667, 0xBB67_AE85, 0x3C6E_F372, 0xA54F_F53A, 0x510E_527F, 0x9B05_688C, 0x1F83_D9AB, 0x5BE0_CD19]
  }

  function Sha256Type(host: Order, is224: bool): Kind<Sha2.Hash, nat> {
    Counted(CountedHash.Scheme(BigEndian, host, false, Sha256Start(is224), n => n, Sha256Step), h => WordBytes(h, 4))
  }

  function Sha512Step(h: Sha2.Hash, ws: seq<nat>): Sha2.Hash {
    if |ws| == 16 then Sha2.Compress(Sha512.StandardOps(), h, ws) else h
  }

  function Sha512Start(is384: bool): Sha2.Hash {
    if is384 then
      [0xCBBB_9D5D_C105_9ED8, 0x629A_292A_367C_D507, 0x9159_015A_3070_DD17, 0x152F_ECD8_F70E_5939,
       0x6733_2667_FFC0_0B31, 0x8EB4_4A87_6858_1511, 0xDB0C_2E0D_64F9_8FA7, 0x47B5_481D_BEFA_4FA4]
    else
      [0x6A09_E667_F3BC_C908, 0xBB67_AE85_84CA_A73B, 0x3C6E_F372_FE94_F82B, 0xA54F_F53A_5F1D_36F1,
       0x510E_527F_ADE6_82D1, 0x9B05_688C_2B3E_6C1F, 0x1F83_D9AB_FB41_BD6B, 0x5BE0_CD19_137E_2179]
  }

  function Sha512Type(host: Order, is384: bool): Kind<Sha2.Hash, nat> {
    Counted(CountedHash.Scheme(BigEndian, host, true, Sha512Start(is384), n => n, Sha512Step), h => WordBytes(h, 8))
  }

  // ---- the hashes in the standard's own terms ----

  function Sha1Compress(h: Sha1.Hash, ws: seq<nat>): Sha1.Hash {
    if |ws| == 16 then Sha1.Compress(h, seq(16, i requires 0 <= i < 16 => Sha1Word(ws[i]))) else h
  }

  /** Section 6.1 of FIPS 180-4, from message bytes to digest bytes. */
  function Sha1Digest(msg: seq<byte>): seq<byte> {
    Fips180.DigestOf(Fips180.Chained(Sha1Compress, Sha1Start(), Fips180.Padded(4, msg), 4), 4)
  }

  /** Sections 6.2 and 6.3; the digest of SHA-224 is the first 28 bytes. */
  function Sha256Digest(is224: bool, msg: seq<byte>): seq<byte> {
    Fips180.DigestOf(Fips180.Chained(Sha256Step, Sha256Start(is224), Fips180.Padded(4, msg), 4), 4)
  }

  /** Sections 6.4 and 6.5; the digest of SHA-384 is the first 48 bytes. */
  function Sha512Digest(is384: bool, msg: seq<byte>): seq<byte> {
    Fips180.DigestOf(Fips180.Chained(Sha512Step, Sha512Start(is384), Fips180.Padded(8, msg), 8), 8)
  }

  /** The digest's bytes give the words back. */
  lemma {:induction false} WordBytesRoundTrip(ws: seq<nat>, size: nat)
    requires size > 0 && forall i | 0 <= i < |ws| :: ws[i] < Pow256(size)
    ensures WordsOf(BigEndian, size, WordBytes(ws, size)) == ws
  {
    hide ToBytes, WordsOf, Pow256;
    if ws == [] {
      NoWords(size);
    } else {
      var n := |ws| - 1;
      WordBytesRoundTrip(ws[..n], size);
      ModUnique(size * n, size, n, 0);
      WordsAppend(BigEndian, size, WordBytes(ws[..n], size), ToBytes(BigEndian, ws[n], size));
      OneWord(BigEndian, size, ws[n]);
      SmallMod(ws[n], Pow256(size));
      assert ws == ws[..n] + [ws[n]];
    }
  }

  lemma {:induction false} NoWords(size: nat)
    requires size > 0
    ensures WordsOf(BigEndian, size, WordBytes([], size)) == []
  {
  }

  lemma {:induction false} WordBytesAre(ws: seq<nat>, size: nat)
    requires size > 0
    ensures WordBytes(ws, size) == Fips180.DigestOf(ws, size)
  {
    hide Fips180.ByteOf, ToBytes;
    if ws == [] {
      assert size * 0 == 0;
    } else {
      var n := |ws| - 1;
      var front, bs := ws[..n], WordBytes(ws, size);
      WordBytesAre(front, size);
      Distribute(n, 1, size);
      forall i | 0 <= i < |bs| ensures bs[i] == Fips180.DigestByte(ws, size, i) {
        Fips180.Place(i, size, n + 1);
        if i < size * n {
          assert bs[i] == Fips180.DigestByte(front, size, i);
          Fips180.Place(i, size, n);
        } else {
          ModUnique(i, size, n, i - size * n);
          Fips180.ToBytesAt(ws[n], size, i - size * n);
        }
      }
    }
  }

  /** The context's padding is the standard's. */
  lemma {:induction false} PaddingIsStandard<H, W>(s: CountedHash.Scheme<H, W>, msg: seq<byte>)
    requires s.order == BigEndian
    ensures CountedHash.Padded(s, msg) == Fips180.Padded(CountedHash.WordSize(s), msg)
  {
    hide Pow256, ToBytes, Fips180.Field;
    var size, n := CountedHash.WordSize(s), 8 * |msg|;
    CountedHash.ModulusIsPower(s);
    PowAdd(size, size);
    assert 2 * size == size + size;
    BytesOfMod(BigEndian, n, 2 * size);
    Fips180.ToBytesIsField(n, 2 * size);
  }

  /** A context's one-shot hash is the standard's chain. */
  lemma {:induction false} OneShotIsChained<H, W>(s: CountedHash.Scheme<H, W>, compress: (H, seq<nat>) -> H,
                                                  msg: seq<byte>)
    requires s.order == BigEndian
    requires forall h: H, ws: seq<nat> :: compress(h, ws) == s.compress(h, CountedHash.Typed(s, ws))
    ensures var size := CountedHash.WordSize(s);
      CountedHash.OneShot(s, msg) == Fips180.Chained(compress, s.start, Fips180.Padded(size, msg), size)
  {
    hide Blocks, Fips180.Chained, Fips180.Padded, CountedHash.Padded, WordsOf, CountedHash.Typed, Fips180.BlockAt;
    var size := CountedHash.WordSize(s);
    PaddingIsStandard(s, msg);
    CountedHash.PaddedIsWhole(s, msg);
    forall h: H, block: seq<byte> | |block| == 16 * size
      ensures CountedHash.Process(s)(h, block) == compress(h, Fips180.BlockAt(block, 0, size))
    {
      Fips180.WordsAreBlock(block, size);
    }
    Fips180.BlocksAreChained(CountedHash.Process(s), compress, s.start, Fips180.Padded(size, msg), size);
  }

  lemma {:induction false} Sha1IsStandard(host: Order, msg: seq<byte>)
    ensures HashOf(Sha1Type(host), msg) == Sha1Digest(msg)
  {
    hide Fips180.Chained, Fips180.Padded, Sha1.Compress, Sha1Start, Fips180.DigestOf, WordBytes, CountedHash.OneShot;
    var scheme := Sha1Type(host).scheme;
    forall h: Sha1.Hash, ws: seq<nat> ensures Sha1Compress(h, ws) == scheme.compress(h, CountedHash.Typed(scheme, ws)) {
      if |ws| == 16 {
        assert CountedHash.Typed(scheme, ws) == seq(16, i requires 0 <= i < 16 => Sha1Word(ws[i]));
      }
    }
    OneShotIsChained(scheme, Sha1Compress, msg);
    WordBytesAre(Fips180.Chained(Sha1Compress, Sha1Start(), Fips180.Padded(4, msg), 4), 4);
  }

  lemma {:induction false} Sha256IsStandard(host: Order, is224: bool, msg: seq<byte>)
    ensures HashOf(Sha256Type(host, is224), msg) == Sha256Digest(is224, msg)
  {
    hide Fips180.Chained, Fips180.Padded, Sha2.Compress, Sha256Start, Fips180.DigestOf, WordBytes, CountedHash.OneShot;
    var scheme := Sha256Type(host, is224).scheme;
    forall h: Sha2.Hash, ws: seq<nat> ensures Sha256Step(h, ws) == scheme.compress(h, CountedHash.Typed(scheme, ws)) {
      assert CountedHash.Typed(scheme, ws) == ws;
    }
    OneShotIsChained(scheme, Sha256Step, msg);
    WordBytesAre(Fips180.Chained(Sha256Step, Sha256Start(is224), Fips180.Padded(4, msg), 4), 4);
  }

  lemma {:induction false} Sha512IsStandard(host: Order, is384: bool, msg: seq<byte>)
    ensures HashOf(Sha512Type(host, is384), msg) == Sha512Digest(is384, msg)
  {
    hide Fips180.Chained, Fips180.Padded, Sha2.Compress, Sha512Start, Fips180.DigestOf, WordBytes, CountedHash.OneShot;
    var scheme := Sha512Type(host, is384).scheme;
    forall h: Sha2.Hash, ws: seq<nat> ensures Sha512Step(h, ws) == scheme.compress(h, CountedHash.Typed(scheme, ws)) {
      assert CountedHash.Typed(scheme, ws) == ws;
    }
    OneShotIsChained(scheme, Sha512Step, msg);
    WordBytesAre(Fips180.Chained(Sha512Step, Sha512Start(is384), Fips180.Padded(8, msg), 8), 8);
  }

  // ---- what the contexts call for each block is computed in place ----

  /** SHA-1's in-place code on the words of a block is the block step of the context. */
  method Sha1Block(host: Order, hash: array<Sha1.Word>, block: seq<byte>)
    requires hash.Length == 5 && |block| == 64
    modifies hash
    ensures hash[..] == CountedHash.Process(Sha1Type(host).scheme)(old(hash[..]), block)
  {
    hide WordsOf, Sha1Start, WordBytes, Sha1.Compress;
    var scheme := Sha1Type(host).scheme;
    var words := CountedHash.Typed(scheme, WordsOf(scheme.order, 4, block));
    ghost var h: Sha1.Hash := hash[..];
    assert |words| == 16;
    Sha1.Process(hash, words);
    assert CountedHash.WordSize(scheme) == 4;
    assert CountedHash.Process(scheme)(h, block) == scheme.compress(h, words) == Sha1Step(h, words);
  }

  /** SHA-256's and SHA-224's. */
  method Sha256Block(host: Order, is224: bool, hash: array<nat>, block: seq<byte>)
    requires hash.Length == 8 && |block| == 64
    modifies hash
    ensures hash[..] == CountedHash.Process(Sha256Type(host, is224).scheme)(old(hash[..]), block)
  {
    hide WordsOf, Sha256Start, WordBytes, Sha2.Compress;
    var scheme := Sha256Type(host, is224).scheme;
    var words := CountedHash.Typed(scheme, WordsOf(scheme.order, 4, block));
    ghost var h: Sha2.Hash := hash[..];
    assert |words| == 16;
    Sha256.Process(hash, words);
    assert CountedHash.WordSize(scheme) == 4;
    assert CountedHash.Process(scheme)(h, block) == scheme.compress(h, words) == Sha256Step(h, words);
  }

  /** SHA-512's and SHA-384's. */
  method Sha512Block(host: Order, is384: bool, hash: array<nat>, block: seq<byte>)
    requires hash.Length == 8 && |block| == 128
    modifies hash
    ensures hash[..] == CountedHash.Process(Sha512Type(host, is384).scheme)(old(hash[..]), block)
  {
    hide WordsOf, Sha512Start, WordBytes, Sha2.Compress;
    var scheme := Sha512Type(host, is384).scheme;
    var words := CountedHash.Typed(scheme, WordsOf(scheme.order, 8, block));
    ghost var h: Sha2.Hash := hash[..];
    assert |words| == 16;
    Sha512.Process(hash, words);
    assert CountedHash.WordSize(scheme) == 8;
    assert CountedHash.Process(scheme)(h, block) == scheme.compress(h, words) == Sha512Step(h, words);
  }

  // ---- runs ----

  /** SHA-1 over any run of calls, with the block step that `Sha1Block` computes: queries
      that cover chunks below 2^32 bytes answer with the standard's hash. */
  method RunSha1(host: Order, ops: seq<Op>) returns (outcomes: seq<Outcome>)
    requires forall i | 0 <= i < |ops| && ops[i].Update? :: InMemory(ops[i].data)
    ensures |outcomes| == |ops|
    ensures forall i | 0 <= i < |ops| && AllBelow(0x1_0000_0000, Covered(ops[..i], 20)) ::
      outcomes[i] == Answer(20, ops[i], Sha1Digest(Concat(Covered(ops[..i], 20))))
  {
    hide Answered, Answer, AllBelow, Covered, HashOf, Sha1Digest, Sha256Digest, Sha512Digest, Concat;
    outcomes := Run(Sha1Type(host), 20, ops);
    forall i | 0 <= i < |ops| && AllBelow(0x1_0000_0000, Covered(ops[..i], 20))
      ensures outcomes[i] == Answer(20, ops[i], Sha1Digest(Concat(Covered(ops[..i], 20))))
    {
      Sha1IsStandard(host, Concat(Covered(ops[..i], 20)));
    }
  }

  /** SHA-256, or SHA-224. */
  method RunSha256(host: Order, is224: bool, ops: seq<Op>) returns (outcomes: seq<Outcome>)
    requires forall i | 0 <= i < |ops| && ops[i].Update? :: InMemory(ops[i].data)
    ensures |outcomes| == |ops|
    ensures var hashLen := if is224 then 28 else 32;
      forall i | 0 <= i < |ops| && AllBelow(0x1_0000_0000, Covered(ops[..i], hashLen)) ::
        outcomes[i] == Answer(hashLen, ops[i], Sha256Digest(is224, Concat(Covered(ops[..i], hashLen))))
  {
    hide Answered, Answer, AllBelow, Covered, HashOf, Sha1Digest, Sha256Digest, Sha512Digest, Concat;
    var hashLen := if is224 then 28 else 32;
    outcomes := Run(Sha256Type(host, is224), hashLen, ops);
    forall i | 0 <= i < |ops| && AllBelow(0x1_0000_0000, Covered(ops[..i], hashLen))
      ensures outcomes[i] == Answer(hashLen, ops[i], Sha256Digest(is224, Concat(Covered(ops[..i], hashLen))))
    {
      Sha256IsStandard(host, is224, Concat(Covered(ops[..i], hashLen)));
    }
  }

  /** SHA-512, or SHA-384, with its two 64-bit words: chunks of any length. */
  method RunSha512(host: Order, is384: bool, ops: seq<Op>) returns (outcomes: seq<Outcome>)
    requires forall i | 0 <= i < |ops| && ops[i].Update? :: InMemory(ops[i].data)
    ensures |outcomes| == |ops|
    ensures var hashLen := if is384 then 48 else 64;
      forall i | 0 <= i < |ops| ::
        outcomes[i] == Answer(hashLen, ops[i], Sha512Digest(is384, Concat(Covered(ops[..i], hashLen))))
  {
    hide Answered, Answer, AllBelow, Covered, HashOf, Sha1Digest, Sha256Digest, Sha512Digest, Concat;
    var hashLen := if is384 then 48 else 64;
    outcomes := Run(Sha512Type(host, is384), hashLen, ops);
    forall i | 0 <= i < |ops| ensures AllBelow(0x1_0000_0000_0000_0000, Covered(ops[..i], hashLen)) {
      CoveredBelow(0x1_0000_0000_0000_0000, ops[..i], hashLen);
    }
    forall i | 0 <= i < |ops|
      ensures outcomes[i] == Answer(hashLen, ops[i], Sha512Digest(is384, Concat(Covered(ops[..i], hashLen))))
    {
      Sha512IsStandard(host, is384, Concat(Covered(ops[..i], hashLen)));
    }
  }

  /** The SHA-3 variants, with chunks of any length. */
  method RunSha3(variant: Sponge.Variant, ops: seq<Op>) returns (outcomes: seq<Outcome>)
    requires forall i | 0 <= i < |ops| && ops[i].Update? :: InMemory(ops[i].data)
    ensures |outcomes| == |ops|
    ensures forall i | 0 <= i < |ops| ::
      outcomes[i] == Ideal(Sha3Type(variant), Sponge.Digest(variant) / 8, ops[..i], ops[i])
  {
    hide Answered, Ideal, Covered;
    outcomes := Run(Sha3Type(variant), Sponge.Digest(variant) / 8, ops);
  }

  function Sha3Type(variant: Sponge.Variant): Kind<nat, nat> {
    Sha3(variant)
  }
}
