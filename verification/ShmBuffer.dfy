/** The shared-memory ring buffer: the positions arithmetic and what a well-formed
    segment holds. */
module Ring {
  import opened ByteType

  // ---- the atomic queue ----

  datatype Op = Read(len: nat) | Write(bytes: seq<byte>) | Used | Free | Clear

  datatype Result = Invalid | Bytes(storage: seq<byte>) | Count(n: int) | Done

  /** The whole operation at once, on a queue of at most cap bytes. */
  function Apply(cap: nat, q: seq<byte>, op: Op): (seq<byte>, Result) {
    match op
    case Read(len) =>
      if len == 0 then (q, Invalid)
      else var n := if |q| <= len then |q| else len; (q[n..], Bytes(q[..n]))
    case Write(d) =>
      if d == [] then (q, Invalid)
      else if |q| + |d| <= cap then (q + d, Count(|d|))
      else (q, Count(0))
    case Used => (q, Count(|q|))
    case Free => (q, Count(cap - |q|))
    case Clear => ([], Done)
  }

  // ---- positions and slots ----

  /** Bytes waiting, from the two positions (`size` counts one slot that stays empty). */
  function UsedSpace(size: nat, readPos: nat, writePos: nat): int {
    if writePos > readPos then writePos - readPos
    else if writePos < readPos then size - (readPos - writePos)
    else 0
  }

  function FreeSpace(size: nat, readPos: nat, writePos: nat): int {
    if writePos < readPos then readPos - writePos - 1
    else if writePos > readPos then size - (writePos - readPos) - 1
    else size - 1
  }

  /** The slot i places after pos. */
  function Slot(size: nat, pos: nat, i: nat): nat
    requires size > 0
  {
    (pos + i) % size
  }

  lemma {:induction false} UsedPlusFree(size: nat, readPos: nat, writePos: nat)
    requires readPos < size && writePos < size
    ensures UsedSpace(size, readPos, writePos) + FreeSpace(size, readPos, writePos) == size - 1
    ensures 0 <= UsedSpace(size, readPos, writePos) < size
  {
  }

  lemma {:induction false} SlotWraps(size: nat, pos: nat, i: nat)
    requires pos < size && i <= size
    ensures Slot(size, pos, i) == if pos + i < size then pos + i else pos + i - size
    ensures Slot(size, pos, i) < size
  {
    if pos + i >= size {
      ModOnce(size, pos + i);
    }
  }

  lemma {:induction false} ModOnce(size: nat, x: nat)
    requires 0 < size <= x < 2 * size
    ensures x % size == x - size
  {
    assert x / size == 1;
  }

  lemma {:induction false} SlotsDiffer(size: nat, pos: nat, i: nat, j: nat)
    requires pos < size && i < j < size
    ensures Slot(size, pos, i) != Slot(size, pos, j)
  {
    SlotWraps(size, pos, i);
    SlotWraps(size, pos, j);
  }

  /** Moving on by n and then by i is moving on by n + i. */
  lemma {:induction false} SlotAdd(size: nat, pos: nat, n: nat, i: nat)
    requires pos < size && n + i <= size
    ensures Slot(size, pos, n) < size
    ensures Slot(size, Slot(size, pos, n), i) == Slot(size, pos, n + i)
  {
    SlotWraps(size, pos, n);
    SlotWraps(size, Slot(size, pos, n), i);
    SlotWraps(size, pos, n + i);
  }

  /** The segment holds the queue q between its positions. */
  ghost predicate HoldsQueue(size: nat, readPos: nat, writePos: nat, data: seq<byte>, q: seq<byte>) {
    && size >= 2 && |data| == size && readPos < size && writePos < size
    && |q| == UsedSpace(size, readPos, writePos)
    && forall i | 0 <= i < |q| :: data[Slot(size, readPos, i)] == q[i]
  }

  lemma {:induction false} WriteEnd(size: nat, readPos: nat, writePos: nat)
    requires readPos < size && writePos < size
    ensures Slot(size, readPos, UsedSpace(size, readPos, writePos)) == writePos
  {
    SlotWraps(size, readPos, UsedSpace(size, readPos, writePos));
  }

  /** Advancing the read position by n takes the first n bytes off the queue. */
  lemma {:induction false} TakeFirst(size: nat, readPos: nat, writePos: nat, data: seq<byte>, q: seq<byte>, n: nat)
    requires HoldsQueue(size, readPos, writePos, data, q) && n <= |q|
    ensures HoldsQueue(size, Slot(size, readPos, n), writePos, data, q[n..])
  {
    SlotWraps(size, readPos, n);
    forall i | 0 <= i < |q| - n ensures data[Slot(size, Slot(size, readPos, n), i)] == q[n..][i] {
      SlotAdd(size, readPos, n, i);
    }
  }

  /** A byte written behind the queue leaves the queue alone. */
  lemma {:induction false} WriteBehind(size: nat, readPos: nat, writePos: nat, data: seq<byte>, q: seq<byte>, k: nat,
                                       b: byte)
    requires HoldsQueue(size, readPos, writePos, data, q) && |q| + k < size - 1
    ensures Slot(size, writePos, k) < size
    ensures HoldsQueue(size, readPos, writePos, data[Slot(size, writePos, k) := b], q)
  {
    WriteEnd(size, readPos, writePos);
    SlotAdd(size, readPos, |q|, k);
    forall i | 0 <= i < |q| ensures Slot(size, readPos, i) != Slot(size, writePos, k) {
      SlotsDiffer(size, readPos, i, |q| + k);
    }
  }

  /** Once d lies behind the queue, advancing the write position appends it. */
  lemma {:induction false} AppendLast(size: nat, readPos: nat, writePos: nat, data: seq<byte>, q: seq<byte>,
                                      d: seq<byte>)
    requires HoldsQueue(size, readPos, writePos, data, q) && |q| + |d| <= size - 1
    requires forall i | 0 <= i < |d| :: Slot(size, writePos, i) < |data| && data[Slot(size, writePos, i)] == d[i]
    ensures HoldsQueue(size, readPos, Slot(size, writePos, |d|), data, q + d)
  {
    WriteEnd(size, readPos, writePos);
    SlotWraps(size, readPos, |q|);
    SlotWraps(size, writePos, |d|);
    SlotWraps(size, readPos, |q| + |d|);
    forall i | 0 <= i < |q + d| ensures data[Slot(size, readPos, i)] == (q + d)[i] {
      if i >= |q| {
        SlotAdd(size, readPos, |q|, i - |q|);
      }
    }
  }
}

/** The critical sections of read, write and clear, as code over the mapped segment. */
module ShmBuffer {
  import opened ByteType
  import opened Ring

  class Buffer {
    const size: nat
    var readPos: nat
    var writePos: nat
    const data: array<byte>

    ghost predicate Valid(q: seq<byte>)
      reads this, data
    {
      HoldsQueue(size, readPos, writePos, data[..], q)
    }

    /** A freshly created segment is all zeroes. */
    constructor (size: nat)
      requires size >= 2
      ensures Valid([]) && this.size == size && fresh(data)
    {
      this.size := size;
      readPos, writePos := 0, 0;
      data := new byte[size](_ => 0);
    }

    /** zshm_buffer_read: the oldest bytes, at most len. */
    method Read(len: nat, ghost q: seq<byte>) returns (result: Result, ghost q': seq<byte>)
      requires Valid(q)
      modifies this`readPos
      ensures Valid(q') && (q', result) == Apply(size - 1, q, Op.Read(len))
      ensures len == 0 ==> result == Invalid && q' == q
      ensures len > 0 ==> result.Bytes? && result.storage + q' == q
      ensures len > 0 ==> |result.storage| == len || (q' == [] && |q| < len)
    {
      if len == 0 {
        return Invalid, q;
      }
      if readPos == writePos {
        assert q[0..] == q && q[..0] == [];
        return Bytes([]), q;
      }
      var available := UsedSpace(size, readPos, writePos);
      var toCopy := if available <= len then available else len;
      var storage := [];
      var i := 0;
      while i < toCopy
        invariant 0 <= i <= toCopy && storage == q[..i] && readPos == old(readPos)
      {
        SlotWraps(size, readPos, i);
        assert data[..][Slot(size, readPos, i)] == q[i];
        storage := storage + [data[Slot(size, readPos, i)]];
        i := i + 1;
      }
      TakeFirst(size, readPos, writePos, data[..], q, toCopy);
      readPos := Slot(size, readPos, toCopy);
      result, q' := Bytes(storage), q[toCopy..];
    }

    /** zshm_buffer_write: all of d or nothing. */
    method Write(d: seq<byte>, ghost q: seq<byte>) returns (result: Result, ghost q': seq<byte>)
      requires Valid(q)
      modifies this`writePos, data
      ensures Valid(q') && (q', result) == Apply(size - 1, q, Op.Write(d))
      ensures d == [] ==> result == Invalid && q' == q
      ensures d != [] && |q| + |d| <= size - 1 ==> result == Count(|d|) && q' == q + d
      ensures d != [] && |q| + |d| > size - 1 ==> result == Count(0) && q' == q
    {
      if d == [] {
        return Invalid, q;
      }
      UsedPlusFree(size, readPos, writePos);
      if FreeSpace(size, readPos, writePos) < |d| {
        return Count(0), q;
      }
      var i := 0;
      while i < |d|
        invariant 0 <= i <= |d| && Valid(q)
        invariant forall j | 0 <= j < i :: Slot(size, writePos, j) < size && data[Slot(size, writePos, j)] == d[j]
      {
        WriteBehind(size, readPos, writePos, data[..], q, i, d[i]);
        forall j | 0 <= j < i ensures Slot(size, writePos, j) != Slot(size, writePos, i) {
          SlotsDiffer(size, writePos, j, i);
        }
        ghost var before := data[..];
        data[Slot(size, writePos, i)] := d[i];
        assert data[..] == before[Slot(size, writePos, i) := d[i]];
        i := i + 1;
      }
      AppendLast(size, readPos, writePos, data[..], q, d);
      writePos := Slot(size, writePos, |d|);
      result, q' := Count(|d|), q + d;
    }

    /** zshm_buffer_clear between lock and unlock. */
    method Clear()
      requires size >= 2 && data.Length == size
      modifies this`readPos, this`writePos, data
      ensures Valid([]) && readPos == writePos == 0 && forall i | 0 <= i < data.Length :: data[i] == 0
    {
      readPos, writePos := 0, 0;
      forall i | 0 <= i < data.Length {
        data[i] := 0;
      }
    }
  }
}
