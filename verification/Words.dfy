/** Words stored as bytes in either order, and the two-word byte counter that the
    counting hashes keep. */
module Words {
  import opened ByteType
  import opened Absorb

  datatype Order = LittleEndian | BigEndian

  function Pow256(k: nat): (p: nat)
    ensures p > 0
  {
    if k == 0 then 1 else 256 * Pow256(k - 1)
  }

  /** The number that the bytes stand for. */
  function FromBytes(order: Order, bs: seq<byte>): nat {
    if bs == [] then 0
    else if order.BigEndian? then FromBytes(order, bs[..|bs| - 1]) * 256 + bs[|bs| - 1]
    else FromBytes(order, bs[1..]) * 256 + bs[0]
  }

  /** The low k bytes of n. */
  function ToBytes(order: Order, n: nat, k: nat): (bs: seq<byte>)
    ensures |bs| == k
    decreases k
  {
    if k == 0 then []
    else if order.BigEndian? then ToBytes(order, n / 256, k - 1) + [n % 256]
    else [n % 256] + ToBytes(order, n / 256, k - 1)
  }

  /** Reading back what was stored. */
  lemma {:induction false} BytesRoundTrip(order: Order, n: nat, k: nat)
    ensures FromBytes(order, ToBytes(order, n, k)) == n % Pow256(k)
    decreases k
  {
    if k > 0 {
      BytesRoundTrip(order, n / 256, k - 1);
      DivDiv(n, 256, Pow256(k - 1));
      var bs, hi := ToBytes(order, n, k), ToBytes(order, n / 256, k - 1);
      if order.BigEndian? {
        assert bs[..k - 1] == hi;
      } else {
        assert bs[1..] == hi;
      }
    }
  }

  function Reversed(bs: seq<byte>): seq<byte> {
    if bs == [] then [] else Reversed(bs[1..]) + [bs[0]]
  }

  /** Little-endian bytes are big-endian ones the other way round. */
  lemma {:induction false} OrdersMirror(bs: seq<byte>)
    ensures FromBytes(LittleEndian, bs) == FromBytes(BigEndian, Reversed(bs))
  {
    if bs == [] {
    } else {
      OrdersMirror(bs[1..]);
      var r := Reversed(bs);
      assert r[..|r| - 1] == Reversed(bs[1..]);
    }
  }

  lemma {:induction false} BytesBound(order: Order, bs: seq<byte>)
    ensures FromBytes(order, bs) < Pow256(|bs|)
  {
    if bs != [] {
      BytesBound(order, if order.BigEndian? then bs[..|bs| - 1] else bs[1..]);
    }
  }

  /** What is left of n above its low j bytes. */
  function Above(n: nat, j: nat): nat {
    DivNat(n, Pow256(j));
    n / Pow256(j)
  }

  lemma {:induction false} DivNat(n: nat, d: nat)
    requires d > 0
    ensures n / d >= 0
  {
  }

  /** The low j bytes and the k above them. */
  lemma {:induction false} BytesSplit(order: Order, n: nat, j: nat, k: nat)
    ensures ToBytes(order, n, j + k) ==
      if order.BigEndian? then ToBytes(order, Above(n, j), k) + ToBytes(order, n, j)
      else ToBytes(order, n, j) + ToBytes(order, Above(n, j), k)
    decreases j
  {
    if j > 0 {
      BytesSplit(order, n / 256, j - 1, k);
      DivDiv(n, 256, Pow256(j - 1));
      assert Above(n / 256, j - 1) == Above(n, j);
    } else {
      assert Above(n, 0) == n;
    }
  }

  lemma {:induction false} DivDiv(n: nat, a: nat, b: nat)
    requires a > 0 && b > 0
    ensures a * b > 0 && n / a / b == n / (a * b)
    ensures n % (a * b) == n / a % b * a + n % a
  {
    var q := n / a;
    Below(q % b, b, a, n % a);
    assert q == q / b * b + q % b;
    assert n == q * a + n % a;
    Distribute(q / b * b, q % b, a);
    Associate(q / b, b, a);
    ModUnique(n, a * b, q / b, q % b * a + n % a);
  }

  lemma {:induction false} Distribute(x: int, y: int, a: int)
    ensures (x + y) * a == x * a + y * a
  {
  }

  lemma {:induction false} Associate(x: int, b: int, a: int)
    ensures x * b * a == x * (a * b)
  {
  }

  lemma {:induction false} Below(x: nat, b: nat, a: nat, r: nat)
    requires x < b && r < a
    ensures x * a + r < a * b && 0 <= x * a + r && 0 < a * b
  {
    assert x * a <= (b - 1) * a;
  }

  lemma {:induction false} SumMod(n: nat, len: nat, m: nat)
    requires m > 0
    ensures (n + len) % m == (n % m + len) % m
  {
    var s := n % m + len;
    assert n == n / m * m + n % m;
    assert s == s / m * m + s % m;
    Distribute(n / m, s / m, m);
    ModUnique(n + len, m, n / m + s / m, s % m);
  }

  /** The words of a stretch of bytes. */
  function WordsOf(order: Order, size: nat, bs: seq<byte>): (ws: seq<nat>)
    requires size > 0
    ensures |ws| == |bs| / size
    decreases |bs|
  {
    if |bs| < size then []
    else
      assert |bs| / size == (|bs| - size) / size + 1 by { DivLess(|bs|, size); }
      [FromBytes(order, bs[..size])] + WordsOf(order, size, bs[size..])
  }

  lemma {:induction false} DivLess(n: nat, size: nat)
    requires 0 < size <= n
    ensures n / size == (n - size) / size + 1
  {
    assert n == n / size * size + n % size;
    ModUnique(n - size, size, n / size - 1, n % size);
  }

  lemma {:induction false} WordsAppend(order: Order, size: nat, a: seq<byte>, b: seq<byte>)
    requires size > 0 && |a| % size == 0
    ensures WordsOf(order, size, a + b) == WordsOf(order, size, a) + WordsOf(order, size, b)
    decreases |a|
  {
    hide FromBytes;
    if a == [] {
      assert a + b == b;
    } else {
      ModLess(|a|, size);
      WordsAppend(order, size, a[size..], b);
      assert (a + b)[..size] == a[..size];
      assert (a + b)[size..] == a[size..] + b;
    }
  }

  /** Bytes and words determine each other. */
  lemma {:induction false} BytesInjective(order: Order, a: seq<byte>, b: seq<byte>)
    requires |a| == |b| && FromBytes(order, a) == FromBytes(order, b)
    ensures a == b
  {
    if a == [] {
    } else if order.BigEndian? {
      var n := |a| - 1;
      BytesInjective(order, a[..n], b[..n]);
      assert a == a[..n] + [a[n]] && b == b[..n] + [b[n]];
    } else {
      BytesInjective(order, a[1..], b[1..]);
      assert a == [a[0]] + a[1..] && b == [b[0]] + b[1..];
    }
  }

  lemma {:induction false} WordsInjective(order: Order, size: nat, a: seq<byte>, b: seq<byte>)
    requires size > 0 && |a| == |b| && |a| % size == 0 && WordsOf(order, size, a) == WordsOf(order, size, b)
    ensures a == b
    decreases |a|
  {
    hide FromBytes;
    if |a| < size {
      SmallMod(|a|, size);
    } else {
      var x, y := WordsOf(order, size, a), WordsOf(order, size, b);
      assert x[0] == FromBytes(order, a[..size]) && x[1..] == WordsOf(order, size, a[size..]);
      assert y[0] == FromBytes(order, b[..size]) && y[1..] == WordsOf(order, size, b[size..]);
      BytesInjective(order, a[..size], b[..size]);
      ModLess(|a|, size);
      WordsInjective(order, size, a[size..], b[size..]);
      assert a == a[..size] + a[size..] && b == b[..size] + b[size..];
    }
  }

  lemma {:induction false} OneWord(order: Order, size: nat, n: nat)
    requires size > 0
    ensures WordsOf(order, size, ToBytes(order, n, size)) == [n % Pow256(size)]
  {
    var bs := ToBytes(order, n, size);
    BytesRoundTrip(order, n, size);
    assert bs[..size] == bs && bs[size..] == [];
  }

  lemma {:induction false} PowAdd(a: nat, b: nat)
    ensures Pow256(a + b) == Pow256(a) * Pow256(b)
  {
    if a == 0 {
      assert Pow256(0) == 1;
    } else {
      PowAdd(a - 1, b);
      Associate(256, Pow256(a - 1), Pow256(b));
    }
  }

  /** What does not fit in k bytes does not show in them. */
  lemma {:induction false} BytesOfMod(order: Order, x: nat, k: nat)
    ensures x % Pow256(k) >= 0 && ToBytes(order, x % Pow256(k), k) == ToBytes(order, x, k)
  {
    hide ToBytes, FromBytes, Pow256;
    var y := x % Pow256(k);
    BytesRoundTrip(order, x, k);
    BytesRoundTrip(order, y, k);
    SmallMod(y, Pow256(k));
    BytesInjective(order, ToBytes(order, x, k), ToBytes(order, y, k));
  }

  /** A number of two words: high and low, in the order's sequence. */
  lemma {:induction false} TwoWords(order: Order, size: nat, high: nat, low: nat)
    requires size > 0 && high < Pow256(size) && low < Pow256(size)
    ensures WordsOf(order, size, ToBytes(order, high * Pow256(size) + low, size + size)) ==
      if order.BigEndian? then [high, low] else [low, high]
  {
    hide WordsOf, ToBytes, FromBytes, Pow256;
    var p := Pow256(size);
    var n := high * p + low;
    ModUnique(n, p, high, low);
    BytesSplit(order, n, size, size);
    assert Above(n, size) == high;
    ModUnique(high, p, 0, high);
    OneWord(order, size, n);
    OneWord(order, size, high);
    ModUnique(size, size, 1, 0);
    WordsAppend(order, size, ToBytes(order, high, size), ToBytes(order, n, size));
    WordsAppend(order, size, ToBytes(order, n, size), ToBytes(order, high, size));
  }
}
