/** The wrapper around the hash implementations: an open or closed object that passes
    updates on while it is open, finishes once, and starts over on reset. Its answers are
    the one-shot hash of the message it covers, for every hash of the library. */
module CryptoHash {
  import opened ByteType
  import opened Absorb
  import opened Words
  import CountedHash
  import Sponge
  import Lanes
  import Keccak
  import GostHash

  // ---- the hash implementations behind one interface ----

  /** Which hash: a counting one with its scheme and the bytes of its chaining value, a
      SHA-3 variant, or GOST with its step function. */
  datatype Kind<!H, !W> =
    | Counted(scheme: CountedHash.Scheme<H, W>, encode: H -> seq<byte>)
    | Sha3(variant: Sponge.Variant)
    | Gost(step: GostHash.StepFunction, host: Order)

  datatype Inner<H, W> =
    | CountedContext(counted: CountedHash.Context<H, W>)
    | Sha3Context(sponge: Sponge.Context)
    | GostContext(gost: GostHash.Context)

  function LaneBytes(lanes: seq<Lanes.Lane>): (bs: seq<byte>)
    ensures |bs| == 8 * |lanes|
  {
    if lanes == [] then []
    else LaneBytes(lanes[..|lanes| - 1]) + ToBytes(LittleEndian, Lanes.NumberOf(lanes[|lanes| - 1]), 8)
  }

  function LimbBytes(limbs: seq<nat>): (bs: seq<byte>)
    ensures |bs| == 4 * |limbs|
  {
    if limbs == [] then [] else LimbBytes(limbs[..|limbs| - 1]) + ToBytes(LittleEndian, limbs[|limbs| - 1], 4)
  }

  lemma {:induction false} LaneBytesRoundTrip(lanes: seq<Lanes.Lane>)
    ensures WordsOf(LittleEndian, 8, LaneBytes(lanes)) ==
      seq(|lanes|, i requires 0 <= i < |lanes| => Lanes.NumberOf(lanes[i]))
  {
    hide ToBytes, WordsOf, Pow256, Lanes.NumberOf;
    if lanes == [] {
      NoWords(8);
    } else {
      var n := |lanes| - 1;
      var front, last := lanes[..n], Lanes.NumberOf(lanes[n]);
      LaneBytesRoundTrip(front);
      WordsAppend(LittleEndian, 8, LaneBytes(front), ToBytes(LittleEndian, last, 8));
      OneWord(LittleEndian, 8, last);
      CountedHash.Pow8Is();
      NumberFits(lanes[n]);
      SmallMod(last, Pow256(8));
    }
  }

  /** A block that holds the bytes of some lanes, added to the zero state, puts these lanes
      there: what goes in and what comes out is in one order. */
  lemma {:induction false} LanesGoIn(lanes: seq<Lanes.Lane>)
    requires |lanes| <= 25
    ensures var ws := WordsOf(LittleEndian, 8, LaneBytes(lanes));
      |ws| == |lanes| && Sponge.Xored(Sponge.Start(), ws)[..|lanes|] == lanes
  {
    hide WordsOf, LaneBytes, Lanes.Xor, Sponge.LaneOf, Lanes.NumberOf;
    LaneBytesRoundTrip(lanes);
    forall i | 0 <= i < |lanes| ensures Lanes.Xor(Lanes.Lane(0), Sponge.LaneOf(Lanes.NumberOf(lanes[i]))) == lanes[i] {
      LaneTakes(lanes[i]);
    }
  }

  lemma {:induction false} NumberFits(a: Lanes.Lane)
    ensures Lanes.NumberOf(a) < 0x1_0000_0000_0000_0000
  {
  }

  lemma {:induction false} LaneTakes(a: Lanes.Lane)
    ensures Lanes.Xor(Lanes.Lane(0), Sponge.LaneOf(Lanes.NumberOf(a))) == a
  {
    hide Lanes.Xor;
    BitsAgain(a.bits, Lanes.NumberOf(a));
    XorZero(a.bits);
  }

  lemma {:induction false} BitsAgain(b: bv64, n: nat)
    requires n == b as nat
    ensures n < 0x1_0000_0000_0000_0000 && n as bv64 == b
  {
  }

  lemma {:induction false} XorZero(b: bv64)
    ensures Lanes.Xor(Lanes.Lane(0), Lanes.Lane(b)) == Lanes.Lane(b)
  {
  }

  lemma {:induction false} NoWords(size: nat)
    requires size > 0
    ensures WordsOf(LittleEndian, size, []) == []
  {
  }

  lemma {:induction false} LimbBytesRoundTrip(limbs: seq<nat>)
    requires forall i | 0 <= i < |limbs| :: limbs[i] < 0x1_0000_0000
    ensures WordsOf(LittleEndian, 4, LimbBytes(limbs)) == limbs
  {
    hide ToBytes, WordsOf, Pow256;
    if limbs == [] {
      NoWords(4);
    } else {
      var n := |limbs| - 1;
      LimbBytesRoundTrip(limbs[..n]);
      WordsAppend(LittleEndian, 4, LimbBytes(limbs[..n]), ToBytes(LittleEndian, limbs[n], 4));
      OneWord(LittleEndian, 4, limbs[n]);
      CountedHash.Pow8Is();
      SmallMod(limbs[n], Pow256(4));
      assert limbs == limbs[..n] + [limbs[n]];
    }
  }

  /** The hash of a whole message, in bytes. */
  ghost function HashOf<H, W>(kind: Kind<H, W>, msg: seq<byte>): seq<byte> {
    match kind
    case Counted(scheme, encode) => encode(CountedHash.OneShot(scheme, msg))
    case Sha3(variant) => LaneBytes(Sponge.OneShot(variant, Keccak.KeccakF, msg))
    case Gost(step, _) => LimbBytes(GostHash.OneShot(step, msg))
  }

  /** The hash that the implementation gives of chunks of any length. */
  ghost function ChunksHashOf<H, W>(kind: Kind<H, W>, chunks: seq<seq<byte>>): seq<byte> {
    match kind
    case Counted(scheme, encode) => encode(CountedHash.ChunksHash(scheme, chunks))
    case Sha3(variant) => LaneBytes(Sponge.OneShot(variant, Keccak.KeccakF, Concat(chunks)))
    case Gost(step, host) => LimbBytes(GostHash.ChunksHash(step, host, chunks))
  }

  /** The lengths that the implementation's casts leave alone. */
  predicate Fits<H, W>(kind: Kind<H, W>, chunks: seq<seq<byte>>) {
    match kind
    case Counted(scheme, _) => AllBelow(CountedHash.Modulus(scheme), chunks)
    case Sha3(_) => true
    case Gost(_, _) => AllBelow(0x1_0000_0000, chunks)
  }

  /** Chunks that fit give the hash of the whole message. */
  lemma {:induction false} FittingChunks<H, W>(kind: Kind<H, W>, chunks: seq<seq<byte>>)
    ensures Fits(kind, chunks) ==> ChunksHashOf(kind, chunks) == HashOf(kind, Concat(chunks))
  {
    hide AllBelow, Concat;
    match kind
    case Counted(scheme, _) => CountedHash.ShortChunksHash(scheme, chunks);
    case Sha3(_) =>
    case Gost(step, host) => GostHash.ShortChunksHash(step, host, chunks);
  }

  /** A chunk that lies in memory beside the context. */
  predicate InMemory(chunk: seq<byte>) {
    |chunk| + 200 < 0x1_0000_0000_0000_0000
  }

  /** Digests have at least the length that is handed out. */
  ghost predicate LongEnough<H(!new), W>(kind: Kind<H, W>, hashLen: nat) {
    match kind
    case Counted(_, encode) => forall h: H :: |encode(h)| >= hashLen
    case Sha3(_) => hashLen <= 200
    case Gost(_, _) => hashLen <= 32
  }

  ghost function Footprint<H, W>(x: Inner<H, W>): set<object> {
    match x
    case CountedContext(c) => {c, c.buf}
    case Sha3Context(c) => {c, c.buf}
    case GostContext(c) => {c, c.buf, c.count}
  }

  /** The context is of this kind, with buffers of its size. */
  ghost predicate OfKind<H, W>(kind: Kind<H, W>, x: Inner<H, W>) {
    match kind
    case Counted(scheme, _) =>
      x.CountedContext? && x.counted.scheme == scheme && x.counted.buf.Length == CountedHash.Block(scheme)
    case Sha3(variant) =>
      && x.Sha3Context? && x.sponge.variant == variant && x.sponge.permute == Keccak.KeccakF
      && x.sponge.buf.Length == 200
    case Gost(step, host) =>
      && x.GostContext? && x.gost.step == step && x.gost.host == host
      && x.gost.buf.Length == 32 && x.gost.count.Length == 8
  }

  ghost predicate Holds<H, W>(kind: Kind<H, W>, x: Inner<H, W>, chunks: seq<seq<byte>>)
    requires OfKind(kind, x)
    reads Footprint(x)
  {
    match x
    case CountedContext(c) =>
      var block, m, word := CountedHash.Block(c.scheme), CountedHash.Modulus(c.scheme), CountedHash.SwapSize(c.scheme);
      c.Holds(TakeAll(block, m, word, chunks), CountedHash.CountAll(m, chunks))
    case Sha3Context(c) => c.Absorbed(Concat(chunks))
    case GostContext(c) =>
      c.Holds(TakeAll(32, 0x1_0000_0000, GostHash.SwapSize(c.host), chunks)) && c.count[..] == GostHash.CountAll(chunks)
  }

  function Digest<H, W>(kind: Kind<H, W>, x: Inner<H, W>): seq<byte>
    requires OfKind(kind, x)
    reads Footprint(x)
  {
    match x
    case CountedContext(c) => kind.encode(c.hash)
    case Sha3Context(c) => LaneBytes(c.hash)
    case GostContext(c) => LimbBytes(c.chain.hash)
  }

  method Create<H, W>(kind: Kind<H, W>) returns (x: Inner<H, W>)
    ensures fresh(Footprint(x)) && OfKind(kind, x) && Holds(kind, x, [])
  {
    match kind
    case Counted(scheme, _) =>
      var c := new CountedHash.Context(scheme);
      x := CountedContext(c);
    case Sha3(variant) =>
      var c := new Sponge.Context(variant, Keccak.KeccakF);
      x := Sha3Context(c);
    case Gost(step, host) =>
      var c := new GostHash.Context(step, host);
      x := GostContext(c);
  }

  method Feed<H, W>(kind: Kind<H, W>, x: Inner<H, W>, data: seq<byte>, ghost chunks: seq<seq<byte>>)
    requires OfKind(kind, x) && Holds(kind, x, chunks) && InMemory(data)
    modifies Footprint(x)
    ensures Holds(kind, x, chunks + [data])
  {
    hide Take;
    assert (chunks + [data])[..|chunks|] == chunks;
    match x
    case CountedContext(c) =>
      ghost var block, m := CountedHash.Block(c.scheme), CountedHash.Modulus(c.scheme);
      ghost var word := CountedHash.SwapSize(c.scheme);
      c.Update(data, TakeAll(block, m, word, chunks), CountedHash.CountAll(m, chunks));
    case Sha3Context(c) => c.Update(data, Concat(chunks));
    case GostContext(c) => c.Update(data, TakeAll(32, 0x1_0000_0000, GostHash.SwapSize(c.host), chunks));
  }

  method Finish<H, W>(kind: Kind<H, W>, x: Inner<H, W>, ghost chunks: seq<seq<byte>>)
    requires OfKind(kind, x) && Holds(kind, x, chunks)
    modifies Footprint(x)
    ensures Digest(kind, x) == ChunksHashOf(kind, chunks)
  {
    match x
    case CountedContext(c) =>
      ghost var block, m := CountedHash.Block(c.scheme), CountedHash.Modulus(c.scheme);
      ghost var word := CountedHash.SwapSize(c.scheme);
      c.Finish(TakeAll(block, m, word, chunks), CountedHash.CountAll(m, chunks));
    case Sha3Context(c) => c.Finish(Concat(chunks));
    case GostContext(c) => c.Finish(TakeAll(32, 0x1_0000_0000, GostHash.SwapSize(c.host), chunks));
  }

  method Restart<H, W>(kind: Kind<H, W>, x: Inner<H, W>)
    requires OfKind(kind, x)
    modifies Footprint(x)
    ensures Holds(kind, x, [])
  {
    match x
    case CountedContext(c) => c.Reset();
    case Sha3Context(c) => c.Reset();
    case GostContext(c) => c.Reset();
  }

  // ---- hex ----

  const HEX_DIGITS: string := "0123456789abcdef"

  function Hex(bs: seq<byte>): (s: string)
    ensures |s| == 2 * |bs|
  {
    if bs == [] then []
    else Hex(bs[..|bs| - 1]) + [HEX_DIGITS[bs[|bs| - 1] / 16], HEX_DIGITS[bs[|bs| - 1] % 16]]
  }

  method DigestToHex(digest: seq<byte>, len: nat) returns (out: string)
    requires len <= |digest|
    ensures out == Hex(digest[..len])
  {
    var text := new char[2 * len];
    for i := 0 to len
      invariant text[..2 * i] == Hex(digest[..i])
    {
      text[2 * i] := HEX_DIGITS[digest[i] / 16];
      text[2 * i + 1] := HEX_DIGITS[digest[i] % 16];
      assert digest[..i + 1][..i] == digest[..i];
      assert text[..2 * (i + 1)] == text[..2 * i] + [text[2 * i], text[2 * i + 1]];
    }
    out := text[..];
    assert text[..] == text[..2 * len];
  }

  lemma {:induction false} HexDigitsDiffer(i: nat, j: nat)
    requires i < 16 && j < 16 && HEX_DIGITS[i] == HEX_DIGITS[j]
    ensures i == j
  {
  }

  /** What a digit stands for. */
  function DigitValue(c: char): int {
    if '0' <= c <= '9' then c as int - '0' as int
    else if 'a' <= c <= 'f' then c as int - 'a' as int + 10
    else -1
  }

  lemma {:induction false} DigitsAreHex(i: nat)
    requires i < 16
    ensures DigitValue(HEX_DIGITS[i]) == i
  {
  }

  /** Each byte is written as its two hexadecimal digits, the high one first. */
  lemma {:induction false} HexReadsBack(bs: seq<byte>, i: nat)
    requires i < |bs|
    ensures 16 * DigitValue(Hex(bs)[2 * i]) + DigitValue(Hex(bs)[2 * i + 1]) == bs[i]
  {
    hide DigitValue;
    var n := |bs| - 1;
    if i < n {
      HexReadsBack(bs[..n], i);
    } else {
      DigitsAreHex(bs[n] / 16);
      DigitsAreHex(bs[n] % 16);
    }
  }

  /** The text gives the bytes back: different digests have different strings. */
  lemma {:induction false} HexIsInjective(a: seq<byte>, b: seq<byte>)
    requires Hex(a) == Hex(b)
    ensures a == b
  {
    if a != [] {
      var n := |a| - 1;
      var x, y := Hex(a), Hex(b);
      assert |b| == |a|;
      assert x[..2 * n] == Hex(a[..n]) && y[..2 * n] == Hex(b[..n]);
      assert x[2 * n] == HEX_DIGITS[a[n] / 16] && y[2 * n] == HEX_DIGITS[b[n] / 16];
      assert x[2 * n + 1] == HEX_DIGITS[a[n] % 16] && y[2 * n + 1] == HEX_DIGITS[b[n] % 16];
      HexDigitsDiffer(a[n] / 16, b[n] / 16);
      HexDigitsDiffer(a[n] % 16, b[n] % 16);
      HexIsInjective(a[..n], b[..n]);
      assert a == a[..n] + [a[n]] && b == b[..n] + [b[n]];
    }
  }

  // ---- what a run covers, told from the calls alone ----

  datatype Op = Update(data: seq<byte>) | Reset | GetString | GetDigest(room: nat)

  datatype Outcome = Nothing | Text(text: string) | Octets(bytes: seq<byte>)

  /** A query that finishes the hash: a digest call with too little room does not. */
  predicate Closes(op: Op, hashLen: nat) {
    op.GetString? || (op.GetDigest? && op.room >= hashLen)
  }

  /** The calls after the last reset. */
  function SinceReset(ops: seq<Op>): seq<Op> {
    if ops == [] then []
    else
      var last := ops[|ops| - 1];
      if last.Reset? then [] else SinceReset(ops[..|ops| - 1]) + [last]
  }

  /** The calls before the first one that closes. */
  function WhileOpen(ops: seq<Op>, hashLen: nat): seq<Op> {
    if ops == [] || Closes(ops[0], hashLen) then [] else [ops[0]] + WhileOpen(ops[1..], hashLen)
  }

  /** The chunks handed over by the updates. */
  function Chunks(ops: seq<Op>): seq<seq<byte>> {
    if ops == [] then []
    else
      var last := ops[|ops| - 1];
      Chunks(ops[..|ops| - 1]) + if last.Update? && last.data != [] then [last.data] else []
  }

  function Covered(ops: seq<Op>, hashLen: nat): seq<seq<byte>> {
    Chunks(WhileOpen(SinceReset(ops), hashLen))
  }

  predicate SomeCloses(ops: seq<Op>, hashLen: nat) {
    ops != [] && (Closes(ops[0], hashLen) || SomeCloses(ops[1..], hashLen))
  }

  predicate Closed(ops: seq<Op>, hashLen: nat) {
    SomeCloses(SinceReset(ops), hashLen)
  }

  /** What a query answers, given the digest's bytes. */
  function Answer(hashLen: nat, op: Op, bytes: seq<byte>): Outcome {
    var result := if |bytes| >= hashLen then bytes[..hashLen] else bytes;
    match op
    case Update(_) => Nothing
    case Reset => Nothing
    case GetString => Text(Hex(result))
    case GetDigest(room) => if hashLen > room then Octets([]) else Octets(result)
  }

  /** What a call answers: the hash of the covered chunks. */
  ghost function Answered<H, W>(kind: Kind<H, W>, hashLen: nat, before: seq<Op>, op: Op): Outcome {
    Answer(hashLen, op, ChunksHashOf(kind, Covered(before, hashLen)))
  }

  /** The one-shot hash of the covered message. */
  ghost function Ideal<H, W>(kind: Kind<H, W>, hashLen: nat, before: seq<Op>, op: Op): Outcome {
    Answer(hashLen, op, HashOf(kind, Concat(Covered(before, hashLen))))
  }

  // ---- one more call ----

  lemma {:induction false} WhileOpenOne(ops: seq<Op>, op: Op, hashLen: nat)
    ensures SomeCloses(ops + [op], hashLen) == (SomeCloses(ops, hashLen) || Closes(op, hashLen))
    ensures !SomeCloses(ops, hashLen) ==> WhileOpen(ops, hashLen) == ops
    ensures SomeCloses(ops + [op], hashLen) ==> WhileOpen(ops + [op], hashLen) == WhileOpen(ops, hashLen)
    ensures !SomeCloses(ops + [op], hashLen) ==> WhileOpen(ops + [op], hashLen) == ops + [op]
  {
    hide Closes;
    if ops == [] {
      assert (ops + [op])[1..] == [];
    } else {
      WhileOpenOne(ops[1..], op, hashLen);
      assert (ops + [op])[1..] == ops[1..] + [op];
      assert [ops[0]] + ops[1..] == ops;
    }
  }

  lemma {:induction false} SinceResetOne(ops: seq<Op>, op: Op)
    ensures SinceReset(ops + [op]) == if op.Reset? then [] else SinceReset(ops) + [op]
  {
    assert (ops + [op])[..|ops|] == ops;
  }

  lemma {:induction false} ChunksOne(ops: seq<Op>, op: Op)
    ensures op.Update? && op.data != [] ==> Chunks(ops + [op]) == Chunks(ops) + [op.data]
    ensures !(op.Update? && op.data != []) ==> Chunks(ops + [op]) == Chunks(ops)
  {
    assert (ops + [op])[..|ops|] == ops;
  }

  /** How a call changes what is covered and whether the hash is closed. */
  lemma {:induction false} OneMore(ops: seq<Op>, op: Op, hashLen: nat)
    ensures op.Reset? ==> Covered(ops + [op], hashLen) == [] && !Closed(ops + [op], hashLen)
    ensures !op.Reset? ==> Closed(ops + [op], hashLen) == (Closed(ops, hashLen) || Closes(op, hashLen))
    ensures op.Update? && op.data != [] && !Closed(ops, hashLen) ==>
      Covered(ops + [op], hashLen) == Covered(ops, hashLen) + [op.data]
    ensures !op.Reset? && !(op.Update? && op.data != [] && !Closed(ops, hashLen)) ==>
      Covered(ops + [op], hashLen) == Covered(ops, hashLen)
  {
    hide SinceReset;
    SinceResetOne(ops, op);
    WhileOpenOne(SinceReset(ops), op, hashLen);
    ChunksOne(SinceReset(ops), op);
  }

  /** All updates hand over fewer bytes than the bound. */
  predicate UpdatesBelow(bound: nat, ops: seq<Op>) {
    forall i | 0 <= i < |ops| && ops[i].Update? :: |ops[i].data| < bound
  }

  lemma {:induction false} SinceResetBelow(bound: nat, ops: seq<Op>)
    requires UpdatesBelow(bound, ops)
    ensures UpdatesBelow(bound, SinceReset(ops))
  {
    if ops == [] {
    } else {
      SinceResetBelow(bound, ops[..|ops| - 1]);
    }
  }

  lemma {:induction false} WhileOpenBelow(bound: nat, ops: seq<Op>, hashLen: nat)
    requires UpdatesBelow(bound, ops)
    ensures UpdatesBelow(bound, WhileOpen(ops, hashLen))
  {
    if ops == [] {
    } else {
      assert forall i | 0 <= i < |ops[1..]| :: ops[1..][i] == ops[i + 1];
      WhileOpenBelow(bound, ops[1..], hashLen);
    }
  }

  lemma {:induction false} ChunksBelow(bound: nat, ops: seq<Op>)
    requires UpdatesBelow(bound, ops)
    ensures AllBelow(bound, Chunks(ops))
  {
    if ops == [] {
    } else {
      ChunksBelow(bound, ops[..|ops| - 1]);
    }
  }

  lemma {:induction false} CoveredBelow(bound: nat, ops: seq<Op>, hashLen: nat)
    requires UpdatesBelow(bound, ops)
    ensures AllBelow(bound, Covered(ops, hashLen))
  {
    hide UpdatesBelow, SinceReset, WhileOpen, Chunks;
    SinceResetBelow(bound, ops);
    WhileOpenBelow(bound, SinceReset(ops), hashLen);
    ChunksBelow(bound, WhileOpen(SinceReset(ops), hashLen));
  }

  // ---- the object ----

  class Hash<H(!new), W> {
    const kind: Kind<H, W>
    const hashLen: nat
    const context: Inner<H, W>
    var closed: bool

    /** The object is as after the calls. */
    ghost predicate After(ops: seq<Op>)
      reads this, Footprint(context)
    {
      && this !in Footprint(context) && OfKind(kind, context) && LongEnough(kind, hashLen)
      && closed == Closed(ops, hashLen)
      && (!closed ==> Holds(kind, context, Covered(ops, hashLen)))
      && (closed ==> Digest(kind, context) == ChunksHashOf(kind, Covered(ops, hashLen)))
    }

    constructor (kind: Kind<H, W>, hashLen: nat)
      requires LongEnough(kind, hashLen)
      ensures After([]) && this.kind == kind && this.hashLen == hashLen && fresh(Footprint(context))
    {
      this.kind := kind;
      this.hashLen := hashLen;
      closed := false;
      var x := Create(kind);
      context := x;
    }

    method Update(data: seq<byte>, ghost ops: seq<Op>)
      requires After(ops) && InMemory(data)
      modifies this, Footprint(context)
      ensures After(ops + [Op.Update(data)])
    {
      hide Covered, Closed, Holds, Digest, OfKind, LongEnough;
      OneMore(ops, Op.Update(data), hashLen);
      if data == [] || closed {
        return;
      }
      Feed(kind, context, data, Covered(ops, hashLen));
    }

    method Reset(ghost ops: seq<Op>)
      requires After(ops)
      modifies this, Footprint(context)
      ensures After(ops + [Op.Reset])
    {
      hide Covered, Closed, Holds, Digest, OfKind, LongEnough;
      OneMore(ops, Op.Reset, hashLen);
      Restart(kind, context);
      closed := false;
    }

    /** Finishes the context unless that has been done. */
    method Close(op: Op, ghost ops: seq<Op>)
      requires After(ops) && Closes(op, hashLen)
      modifies this, Footprint(context)
      ensures After(ops + [op]) && closed
      ensures Digest(kind, context) == ChunksHashOf(kind, Covered(ops, hashLen))
    {
      hide Covered, Closed, Holds, Digest, OfKind, LongEnough;
      OneMore(ops, op, hashLen);
      if !closed {
        Finish(kind, context, Covered(ops, hashLen));
        closed := true;
      }
    }

    lemma {:induction false} DigestIsLong()
      requires OfKind(kind, context) && LongEnough(kind, hashLen)
      ensures |Digest(kind, context)| >= hashLen
    {
    }

    method GetString(ghost ops: seq<Op>) returns (text: string)
      requires After(ops)
      modifies this, Footprint(context)
      ensures After(ops + [Op.GetString]) && Text(text) == Answered(kind, hashLen, ops, Op.GetString)
      ensures |text| == 2 * hashLen
    {
      hide Covered, Closed, Holds, Digest, OfKind, LongEnough, ChunksHashOf, Hex;
      Close(Op.GetString, ops);
      DigestIsLong();
      text := DigestToHex(Digest(kind, context), hashLen);
    }

    method GetDigest(room: nat, ghost ops: seq<Op>) returns (bytes: seq<byte>)
      requires After(ops)
      modifies this, Footprint(context)
      ensures After(ops + [Op.GetDigest(room)])
      ensures Octets(bytes) == Answered(kind, hashLen, ops, Op.GetDigest(room))
      ensures |bytes| == if room < hashLen then 0 else hashLen
    {
      hide Covered, Closed, Holds, Digest, OfKind, LongEnough, ChunksHashOf;
      if hashLen > room {
        OneMore(ops, Op.GetDigest(room), hashLen);
        return [];
      }
      Close(Op.GetDigest(room), ops);
      DigestIsLong();
      bytes := Digest(kind, context)[..hashLen];
    }

    method Do(op: Op, ghost ops: seq<Op>) returns (outcome: Outcome)
      requires After(ops) && (op.Update? ==> InMemory(op.data))
      modifies this, Footprint(context)
      ensures After(ops + [op]) && outcome == Answered(kind, hashLen, ops, op)
    {
      hide Covered, Closed, ChunksHashOf;
      match op
      case Update(data) =>
        Update(data, ops);
        outcome := Nothing;
      case Reset =>
        Reset(ops);
        outcome := Nothing;
      case GetString =>
        var text := GetString(ops);
        outcome := Text(text);
      case GetDigest(room) =>
        var bytes := GetDigest(room, ops);
        outcome := Octets(bytes);
    }
  }

  /** Over any run, for every hash of the library, every query answers with the hash of
      exactly the chunks that the updates since the last reset, made while open, have
      handed over; where these fit, with the one-shot hash of their message. */
  method Run<H(!new), W>(kind: Kind<H, W>, hashLen: nat, ops: seq<Op>) returns (outcomes: seq<Outcome>)
    requires LongEnough(kind, hashLen)
    requires forall i | 0 <= i < |ops| && ops[i].Update? :: InMemory(ops[i].data)
    ensures |outcomes| == |ops|
    ensures forall i | 0 <= i < |ops| :: outcomes[i] == Answered(kind, hashLen, ops[..i], ops[i])
    ensures forall i | 0 <= i < |ops| && Fits(kind, Covered(ops[..i], hashLen)) ::
      outcomes[i] == Ideal(kind, hashLen, ops[..i], ops[i])
  {
    hide *;
    var hash := new Hash(kind, hashLen);
    outcomes := [];
    assert ops[..0] == [];
    for i := 0 to |ops|
      invariant hash.kind == kind && hash.hashLen == hashLen && fresh(hash) && fresh(Footprint(hash.context))
      invariant hash.After(ops[..i]) && |outcomes| == i
      invariant forall j | 0 <= j < i :: outcomes[j] == Answered(kind, hashLen, ops[..j], ops[j])
    {
      var outcome := hash.Do(ops[i], ops[..i]);
      outcomes := outcomes + [outcome];
      assert ops[..i + 1] == ops[..i] + [ops[i]];
    }
    forall i | 0 <= i < |ops| && Fits(kind, Covered(ops[..i], hashLen))
      ensures outcomes[i] == Ideal(kind, hashLen, ops[..i], ops[i])
    {
      AnsweredIsIdeal(kind, hashLen, ops[..i], ops[i]);
    }
  }

  lemma {:induction false} AnsweredIsIdeal<H, W>(kind: Kind<H, W>, hashLen: nat, before: seq<Op>, op: Op)
    requires Fits(kind, Covered(before, hashLen))
    ensures Answered(kind, hashLen, before, op) == Ideal(kind, hashLen, before, op)
  {
    FittingChunks(kind, Covered(before, hashLen));
  }
}
