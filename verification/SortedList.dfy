/** The reference the three tree variants are measured against: a list of pairs
    in strictly increasing key order, and the finite map it stands for. */
module SortedList {
  import opened Trees

  datatype Option<T> = None | Some(value: T)

  predicate Below(s: seq<Pair>, k: Key) {
    forall i | 0 <= i < |s| :: Compare(s[i].key, k) < 0
  }

  predicate Above(s: seq<Pair>, k: Key) {
    forall i | 0 <= i < |s| :: Compare(s[i].key, k) > 0
  }

  predicate Sorted(s: seq<Pair>) {
    forall i, j | 0 <= i < j < |s| :: Compare(s[i].key, s[j].key) < 0
  }

  lemma {:induction false} SortedSplit(b: seq<Pair>, p: Pair, a: seq<Pair>)
    requires Sorted(b + [p] + a)
    ensures Below(b, p.key) && Above(a, p.key)
  {
    var s := b + [p] + a;
    assert s[|b|] == p;
    assert forall i | 0 <= i < |b| :: s[i] == b[i];
    assert forall i | 0 <= i < |a| :: s[|b| + 1 + i] == a[i];
  }

  function Put(s: seq<Pair>, k: Key, v: Value): seq<Pair> {
    if s == [] then [Pair(k, v)]
    else if Compare(k, s[0].key) < 0 then [Pair(k, v)] + s
    else if Compare(k, s[0].key) > 0 then [s[0]] + Put(s[1..], k, v)
    else [Pair(k, v)] + s[1..]
  }

  function Del(s: seq<Pair>, k: Key): seq<Pair> {
    if s == [] then []
    else if Compare(k, s[0].key) == 0 then s[1..]
    else [s[0]] + Del(s[1..], k)
  }

  function Get(s: seq<Pair>, k: Key): Option<Pair> {
    if s == [] then None
    else if Compare(k, s[0].key) == 0 then Some(s[0])
    else Get(s[1..], k)
  }

  // ---- a search that has narrowed to the middle of the list ----

  lemma {:induction false} SkipBelow(b: seq<Pair>, s: seq<Pair>, k: Key, v: Value)
    requires Below(b, k)
    ensures Put(b + s, k, v) == b + Put(s, k, v)
    ensures Del(b + s, k) == b + Del(s, k)
    ensures Get(b + s, k) == Get(s, k)
  {
    if b == [] {
      assert b + s == s;
    } else {
      SkipBelow(b[1..], s, k, v);
      assert (b + s)[1..] == b[1..] + s;
    }
  }

  lemma {:induction false} StopAbove(s: seq<Pair>, a: seq<Pair>, k: Key, v: Value)
    requires Above(a, k)
    ensures Put(s + a, k, v) == Put(s, k, v) + a
  {
    if s == [] {
      assert s + a == a;
    } else {
      var x, tail := s[0], s[1..];
      StopAbove(tail, a, k, v);
      assert s + a == [x] + (tail + a);
      if Compare(k, x.key) < 0 {
        assert [Pair(k, v)] + (s + a) == [Pair(k, v)] + s + a;
      } else if Compare(k, x.key) > 0 {
        assert [x] + (Put(tail, k, v) + a) == [x] + Put(tail, k, v) + a;
      } else {
        assert [Pair(k, v)] + (tail + a) == [Pair(k, v)] + tail + a;
      }
    }
  }

  lemma {:induction false} MissAbove(s: seq<Pair>, a: seq<Pair>, k: Key)
    requires Above(a, k)
    ensures Del(s + a, k) == Del(s, k) + a
    ensures Get(s + a, k) == Get(s, k)
  {
    if s == [] {
      assert s + a == a;
      Absent(a, k);
    } else {
      var x, tail := s[0], s[1..];
      MissAbove(tail, a, k);
      assert s + a == [x] + (tail + a);
      assert [x] + (Del(tail, k) + a) == [x] + Del(tail, k) + a;
    }
  }

  lemma {:induction false} Narrow(b: seq<Pair>, s: seq<Pair>, a: seq<Pair>, k: Key, v: Value)
    requires Below(b, k) && Above(a, k)
    ensures Put(b + s + a, k, v) == b + Put(s, k, v) + a
    ensures Del(b + s + a, k) == b + Del(s, k) + a
    ensures Get(b + s + a, k) == Get(s, k)
  {
    assert b + s + a == b + (s + a);
    SkipBelow(b, s + a, k, v);
    StopAbove(s, a, k, v);
    MissAbove(s, a, k);
  }

  lemma {:induction false} FoundAt(b: seq<Pair>, p: Pair, a: seq<Pair>, k: Key, v: Value)
    requires Sorted(b + [p] + a) && Compare(k, p.key) == 0
    ensures Get(b + [p] + a, k) == Some(p)
    ensures Del(b + [p] + a, k) == b + [] + a
    ensures Put(b + [p] + a, k, v) == b + [Pair(k, v)] + a
  {
    SortedSplit(b, p, a);
    Narrow(b, [p], a, k, v);
  }

  lemma {:induction false} Absent(a: seq<Pair>, k: Key)
    requires Above(a, k)
    ensures Del(a, k) == a && Get(a, k) == None
  {
    if a != [] {
      Absent(a[1..], k);
    }
  }

  // ---- the list as a finite map, keyed by the place of the key ----

  function ToMap(s: seq<Pair>): map<int, Pair> {
    if s == [] then map[] else ToMap(s[1..])[s[0].key.rank := s[0]]
  }

  lemma {:induction false} MapKeys(s: seq<Pair>, r: int)
    requires r in ToMap(s)
    ensures exists i :: 0 <= i < |s| && s[i].key.rank == r
  {
    if r != s[0].key.rank {
      MapKeys(s[1..], r);
      var i :| 0 <= i < |s[1..]| && s[1..][i].key.rank == r;
      assert s[i + 1].key.rank == r;
    }
  }

  lemma {:induction false} HeadIsLeast(s: seq<Pair>)
    requires Sorted(s) && s != []
    ensures Sorted(s[1..])
    ensures forall r :: r in ToMap(s[1..]) ==> s[0].key.rank < r
  {
    forall r | r in ToMap(s[1..]) ensures s[0].key.rank < r {
      MapKeys(s[1..], r);
    }
  }

  lemma {:induction false} SortedCons(x: Pair, s: seq<Pair>)
    requires Sorted(s) && Above(s, x.key)
    ensures Sorted([x] + s)
  {
    var t := [x] + s;
    forall i, j | 0 <= i < j < |t| ensures Compare(t[i].key, t[j].key) < 0 {
      assert t[j] == s[j - 1];
      if i > 0 {
        assert t[i] == s[i - 1];
      }
    }
  }

  lemma {:induction false} SortedTail(s: seq<Pair>)
    requires Sorted(s) && s != []
    ensures Sorted(s[1..]) && Above(s[1..], s[0].key)
  {
  }

  lemma {:induction false} PutSorted(s: seq<Pair>, k: Key, v: Value)
    requires Sorted(s)
    ensures Sorted(Put(s, k, v))
    ensures forall b: Key | Above(s, b) && Compare(k, b) > 0 :: Above(Put(s, k, v), b)
  {
    if s != [] {
      SortedTail(s);
      PutSorted(s[1..], k, v);
      if Compare(k, s[0].key) < 0 {
        SortedCons(Pair(k, v), s);
      } else if Compare(k, s[0].key) > 0 {
        SortedCons(s[0], Put(s[1..], k, v));
      } else {
        SortedCons(Pair(k, v), s[1..]);
      }
    }
  }

  /** Insert-or-replace on the list is update of the map. */
  lemma {:induction false} PutIsUpdate(s: seq<Pair>, k: Key, v: Value)
    requires Sorted(s)
    ensures ToMap(Put(s, k, v)) == ToMap(s)[k.rank := Pair(k, v)]
    ensures |Put(s, k, v)| == |s| + if Get(s, k).None? then 1 else 0
  {
    if s != [] {
      HeadIsLeast(s);
      PutIsUpdate(s[1..], k, v);
      if Compare(k, s[0].key) < 0 {
        Absent(s, k);
      }
    }
  }

  lemma {:induction false} DelSorted(s: seq<Pair>, k: Key)
    requires Sorted(s)
    ensures Sorted(Del(s, k))
    ensures forall b: Key | Above(s, b) :: Above(Del(s, k), b)
  {
    if s != [] {
      SortedTail(s);
      DelSorted(s[1..], k);
      if Compare(k, s[0].key) != 0 {
        SortedCons(s[0], Del(s[1..], k));
      }
    }
  }

  /** Removal from the list is removal from the map. */
  lemma {:induction false} DelIsRemoval(s: seq<Pair>, k: Key)
    requires Sorted(s)
    ensures ToMap(Del(s, k)) == ToMap(s) - {k.rank}
    ensures |Del(s, k)| == |s| - if Get(s, k).Some? then 1 else 0
  {
    if s != [] {
      HeadIsLeast(s);
      DelIsRemoval(s[1..], k);
      if Compare(k, s[0].key) != 0 {
        assert Del(s, k)[1..] == Del(s[1..], k);
      }
    }
  }

  lemma {:induction false} GetIsLookup(s: seq<Pair>, k: Key)
    requires Sorted(s)
    ensures Get(s, k) == if k.rank in ToMap(s) then Some(ToMap(s)[k.rank]) else None
  {
    if s != [] {
      HeadIsLeast(s);
      GetIsLookup(s[1..], k);
    }
  }

  lemma {:induction false} LengthIsSize(s: seq<Pair>)
    requires Sorted(s)
    ensures |ToMap(s)| == |s|
  {
    if s != [] {
      HeadIsLeast(s);
      LengthIsSize(s[1..]);
      assert ToMap(s).Keys == ToMap(s[1..]).Keys + {s[0].key.rank};
    }
  }

  /** The map determines the list: two trees that hold the same map read the same. */
  lemma {:induction false} MapDeterminesList(s: seq<Pair>, t: seq<Pair>)
    requires Sorted(s) && Sorted(t) && ToMap(s) == ToMap(t)
    ensures s == t
  {
    LengthIsSize(s);
    LengthIsSize(t);
    if s != [] {
      HeadIsLeast(s);
      HeadIsLeast(t);
      assert s[0].key.rank in ToMap(t) && t[0].key.rank in ToMap(s);
      assert s[0].key.rank == t[0].key.rank;
      assert ToMap(s)[s[0].key.rank] == s[0];
      assert ToMap(s[1..]) == ToMap(s) - {s[0].key.rank};
      assert ToMap(t[1..]) == ToMap(t) - {t[0].key.rank};
      MapDeterminesList(s[1..], t[1..]);
    }
  }

  // ---- why a key may carry its rank ----

  /** cmp is a total preorder on s, read through the sign of its result. */
  ghost predicate TotalPreorder<K(!new)>(cmp: (K, K) -> int, s: set<K>) {
    && (forall a, b | a in s && b in s :: cmp(a, b) < 0 <==> cmp(b, a) > 0)
    && (forall a, b, c | a in s && b in s && c in s :: cmp(a, b) <= 0 && cmp(b, c) <= 0 ==> cmp(a, c) <= 0)
  }

  ghost function RankIn<K(!new)>(cmp: (K, K) -> int, s: set<K>, a: K): int {
    |set x | x in s && cmp(x, a) < 0|
  }

  /** On any finite set of keys a comparator that is a total preorder answers with
      the sign of a difference of integer ranks. */
  lemma {:induction false} RanksRepresent<K(!new)>(cmp: (K, K) -> int, s: set<K>, a: K, b: K)
    requires TotalPreorder(cmp, s) && a in s && b in s
    ensures cmp(a, b) < 0 <==> RankIn(cmp, s, a) < RankIn(cmp, s, b)
    ensures cmp(a, b) > 0 <==> RankIn(cmp, s, a) > RankIn(cmp, s, b)
  {
    if cmp(a, b) < 0 {
      BelowIsFewer(cmp, s, a, b);
    } else if cmp(a, b) > 0 {
      BelowIsFewer(cmp, s, b, a);
    } else {
      assert (set x | x in s && cmp(x, a) < 0) == (set x | x in s && cmp(x, b) < 0);
    }
  }

  lemma {:induction false} BelowIsFewer<K(!new)>(cmp: (K, K) -> int, s: set<K>, a: K, b: K)
    requires TotalPreorder(cmp, s) && a in s && b in s && cmp(a, b) < 0
    ensures RankIn(cmp, s, a) < RankIn(cmp, s, b)
  {
    var sa, sb := set x | x in s && cmp(x, a) < 0, set x | x in s && cmp(x, b) < 0;
    assert sa <= sb;
    assert a in sb && a !in sa;
    SubsetIsSmaller(sa, sb, a);
  }

  lemma {:induction false} SubsetIsSmaller<K>(s: set<K>, t: set<K>, x: K)
    requires s <= t && x in t && x !in s
    ensures |s| < |t|
  {
    assert s <= t - {x};
    var rest := t - {x} - s;
    assert t == s + rest + {x};
  }
}
