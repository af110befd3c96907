/**
 * Python's `sorted(xs, key=..., reverse=True)` and `xs.sort(key=..., reverse=True)`
 * as the engine uses them: a stable sort on a numeric key, largest key first,
 * followed by the slice `xs[:k]`.
 */
module Sorting {

  /** An item paired with the number it is ranked by (the `(item, score)` tuples). */
  datatype Keyed<T> = Keyed(item: T, key: real)

  predicate NonIncreasing<T>(s: seq<Keyed<T>>)
  {
    forall i, j :: 0 <= i < j < |s| ==> s[i].key >= s[j].key
  }

  /** The items of `s` whose key is `k`, in their order in `s`. */
  function KeyRun<T>(s: seq<Keyed<T>>, k: real): seq<T>
  {
    if s == [] then [] else (if s[0].key == k then [s[0].item] else []) + KeyRun(s[1..], k)
  }

  lemma KeyRunCons<T>(x: Keyed<T>, s: seq<Keyed<T>>, k: real)
    ensures KeyRun([x] + s, k) == (if x.key == k then [x.item] else []) + KeyRun(s, k)
  {
    assert ([x] + s)[1..] == s;
  }

  /**
   * Places `x` in front of the first element whose key is not larger than its own,
   * so that `x` stays ahead of the equal-keyed elements that came after it.
   */
  function Insert<T(==)>(x: Keyed<T>, s: seq<Keyed<T>>): (r: seq<Keyed<T>>)
    ensures |r| == |s| + 1
    ensures multiset(r) == multiset(s) + multiset{x}
  {
    if s == [] || x.key >= s[0].key then
      [x] + s
    else
      assert s == [s[0]] + s[1..];
      [s[0]] + Insert(x, s[1..])
  }

  /** No key of `s` exceeds `b`. */
  predicate AllAtMost<T>(s: seq<Keyed<T>>, b: real)
  {
    forall i :: 0 <= i < |s| ==> s[i].key <= b
  }

  lemma {:induction false} InsertAtMost<T>(x: Keyed<T>, s: seq<Keyed<T>>, b: real)
    requires AllAtMost(s, b) && x.key <= b
    ensures AllAtMost(Insert(x, s), b)
    decreases |s|
  {
    if s != [] && x.key < s[0].key {
      InsertAtMost(x, s[1..], b);
      assert Insert(x, s) == [s[0]] + Insert(x, s[1..]);
    }
  }

  lemma ConsOrdered<T>(h: Keyed<T>, t: seq<Keyed<T>>)
    requires NonIncreasing(t) && AllAtMost(t, h.key)
    ensures NonIncreasing([h] + t)
  {
  }

  lemma SnocOrdered<T>(t: seq<Keyed<T>>, y: Keyed<T>)
    requires NonIncreasing(t) && forall x :: x in t ==> x.key >= y.key
    ensures NonIncreasing(t + [y])
  {
    forall i, j | 0 <= i < j < |t| + 1 ensures (t + [y])[i].key >= (t + [y])[j].key {
      assert (t + [y])[i] == t[i] && t[i] in t;
    }
  }

  lemma {:induction false} InsertOrdered<T>(x: Keyed<T>, s: seq<Keyed<T>>)
    requires NonIncreasing(s)
    ensures NonIncreasing(Insert(x, s))
    decreases |s|
  {
    if s == [] || x.key >= s[0].key {
      ConsOrdered(x, s);
    } else {
      InsertOrdered(x, s[1..]);
      InsertAtMost(x, s[1..], s[0].key);
      ConsOrdered(s[0], Insert(x, s[1..]));
    }
  }

  lemma SwapAroundEmpty<U>(a: seq<U>, b: seq<U>, c: seq<U>)
    requires a == [] || b == []
    ensures a + (b + c) == b + (a + c)
  {
    if a == [] {
      assert a + (b + c) == b + c == b + (a + c);
    } else {
      assert a + (b + c) == a + c == b + (a + c);
    }
  }

  lemma {:induction false} InsertKeyRun<T>(x: Keyed<T>, s: seq<Keyed<T>>, k: real)
    ensures KeyRun(Insert(x, s), k) == KeyRun([x] + s, k)
    decreases |s|
  {
    if s != [] && x.key < s[0].key {
      var rest := Insert(x, s[1..]);
      var hx := if x.key == k then [x.item] else [];
      var h0 := if s[0].key == k then [s[0].item] else [];
      assert hx == [] || h0 == [];
      calc {
        KeyRun(Insert(x, s), k);
        { assert Insert(x, s) == [s[0]] + rest; KeyRunCons(s[0], rest, k); }
        h0 + KeyRun(rest, k);
        { InsertKeyRun(x, s[1..], k); KeyRunCons(x, s[1..], k); }
        h0 + (hx + KeyRun(s[1..], k));
        { SwapAroundEmpty(h0, hx, KeyRun(s[1..], k)); }
        hx + (h0 + KeyRun(s[1..], k));
        { KeyRunCons(s[0], s[1..], k); assert [s[0]] + s[1..] == s; }
        hx + KeyRun(s, k);
        { KeyRunCons(x, s, k); }
        KeyRun([x] + s, k);
      }
    }
  }

  /**
   * Stable descending sort: the result holds the same elements as the input
   * (see SortDescOrdered and SortDescStable for its order).
   */
  function SortDesc<T(==)>(s: seq<Keyed<T>>): (r: seq<Keyed<T>>)
    ensures |r| == |s| && multiset(r) == multiset(s)
  {
    if s == [] then
      []
    else
      assert s == [s[0]] + s[1..];
      Insert(s[0], SortDesc(s[1..]))
  }

  /** The sorted sequence is ordered by key, largest first. */
  lemma {:induction false} SortDescOrdered<T>(s: seq<Keyed<T>>)
    ensures NonIncreasing(SortDesc(s))
  {
    if s != [] {
      SortDescOrdered(s[1..]);
      InsertOrdered(s[0], SortDesc(s[1..]));
    }
  }

  /** Stability: the elements that share a key keep their input order. */
  lemma {:induction false} SortDescStable<T>(s: seq<Keyed<T>>, k: real)
    ensures KeyRun(SortDesc(s), k) == KeyRun(s, k)
  {
    if s != [] {
      SortDescStable(s[1..], k);
      InsertKeyRun(s[0], SortDesc(s[1..]), k);
      KeyRunCons(s[0], SortDesc(s[1..]), k);
      KeyRunCons(s[0], s[1..], k);
      assert [s[0]] + s[1..] == s;
    }
  }

  /** Python's slice `s[:k]`, including its meaning for a negative `k`. */
  function SliceTo<T>(s: seq<T>, k: int): (r: seq<T>)
    ensures |r| <= |s| && r == s[..|r|]
    ensures k >= 0 ==> |r| == if k <= |s| then k else |s|
    ensures k < 0 ==> |r| == if |s| + k >= 0 then |s| + k else 0
  {
    if k >= 0 then
      if k <= |s| then s[..k] else s
    else
      if |s| + k >= 0 then s[..|s| + k] else []
  }

  lemma PrefixNonIncreasing<T>(s: seq<Keyed<T>>, n: nat)
    requires n <= |s| && NonIncreasing(s)
    ensures NonIncreasing(s[..n])
  {
  }

  lemma {:induction false} KeyRunPrefix<T>(s: seq<Keyed<T>>, n: nat, k: real)
    requires n <= |s|
    ensures KeyRun(s, k) == KeyRun(s[..n], k) + KeyRun(s[n..], k)
    decreases n
  {
    if n > 0 {
      KeyRunPrefix(s[1..], n - 1, k);
      assert s[1..][..n - 1] == s[..n][1..];
      assert s[1..][n - 1..] == s[n..];
    } else {
      assert s[..0] == [] && s[0..] == s;
    }
  }

  /**
   * Top-k by a stable descending sort: an element of the input that the first `n`
   * places leave out ranks no higher than any element they keep, and ties among
   * the kept ones stay in input order.
   */
  lemma TopSlice<T>(s: seq<Keyed<T>>, n: int)
    ensures NonIncreasing(SliceTo(SortDesc(s), n))
    ensures forall x, y :: x in s && x !in SliceTo(SortDesc(s), n) && y in SliceTo(SortDesc(s), n) ==> y.key >= x.key
    ensures forall y :: y in SliceTo(SortDesc(s), n) ==> y in s
    ensures forall k :: KeyRun(SliceTo(SortDesc(s), n), k) <= KeyRun(s, k)
  {
    var t := SortDesc(s);
    var r := SliceTo(t, n);
    SortDescOrdered(s);
    PrefixNonIncreasing(t, |r|);
    forall x, y | x in s && x !in r && y in r ensures y.key >= x.key {
      assert x in multiset(t);
      var j :| 0 <= j < |t| && t[j] == x;
      var i :| 0 <= i < |r| && r[i] == y;
      assert j >= |r|;
    }
    forall y | y in r ensures y in s {
      assert y in multiset(t);
    }
    forall k ensures KeyRun(r, k) <= KeyRun(s, k) {
      KeyRunPrefix(t, |r|, k);
      SortDescStable(s, k);
    }
  }

  /** A cut that does not bind drops nothing. */
  lemma TopSliceKeepsAll<T>(s: seq<Keyed<T>>, n: int, x: Keyed<T>)
    requires |s| <= n && x in s
    ensures x in SliceTo(SortDesc(s), n)
  {
    assert x in multiset(SortDesc(s));
  }

  /** The entries' positions (the `i` of `enumerate`) increase along the sequence. */
  predicate PositionsIncrease(s: seq<Keyed<nat>>)
  {
    forall a, b :: 0 <= a < b < |s| ==> s[a].item < s[b].item
  }

  /** Among entries with equal keys, positions increase along the sequence. */
  predicate TiesByPosition(s: seq<Keyed<nat>>)
  {
    forall a, b :: 0 <= a < b < |s| && s[a].key == s[b].key ==> s[a].item < s[b].item
  }

  /** An element of `t` after its head, found at a position of `t[1..]`. */
  lemma InTail(t: seq<Keyed<nat>>, y: Keyed<nat>) returns (m: nat)
    requires t != [] && y in t[1..]
    ensures 1 <= m < |t| && t[m] == y
  {
    var k :| 0 <= k < |t[1..]| && t[1..][k] == y;
    m := k + 1;
  }

  /** A head that precedes, in position, every later entry with its key keeps ties in position order. */
  lemma ConsTiesByPosition(h: Keyed<nat>, t: seq<Keyed<nat>>)
    requires TiesByPosition(t)
    requires forall c :: 0 <= c < |t| && t[c].key == h.key ==> h.item < t[c].item
    ensures TiesByPosition([h] + t)
  {
    forall a, b | 0 <= a < b < |t| + 1 && ([h] + t)[a].key == ([h] + t)[b].key
      ensures ([h] + t)[a].item < ([h] + t)[b].item
    {
      assert ([h] + t)[b] == t[b - 1];
      if a > 0 {
        assert ([h] + t)[a] == t[a - 1];
      }
    }
  }

  lemma TailTiesByPosition(t: seq<Keyed<nat>>)
    requires t != [] && TiesByPosition(t)
    ensures TiesByPosition(t[1..])
  {
    forall a, b | 0 <= a < b < |t[1..]| ensures t[1..][a] == t[a + 1] && t[1..][b] == t[b + 1] { }
  }

  lemma {:induction false} InsertTiesByPosition(x: Keyed<nat>, t: seq<Keyed<nat>>)
    requires TiesByPosition(t)
    requires forall y :: y in t && y.key == x.key ==> x.item < y.item
    ensures TiesByPosition(Insert(x, t))
    decreases |t|
  {
    if t == [] || x.key >= t[0].key {
      assert forall c :: 0 <= c < |t| ==> t[c] in t;
      ConsTiesByPosition(x, t);
    } else {
      var rest := Insert(x, t[1..]);
      TailTiesByPosition(t);
      forall y | y in t[1..] && y.key == x.key ensures x.item < y.item {
        var m := InTail(t, y);
      }
      InsertTiesByPosition(x, t[1..]);
      forall c | 0 <= c < |rest| && rest[c].key == t[0].key ensures t[0].item < rest[c].item {
        var y := rest[c];
        assert y in multiset(rest);
        if y != x {
          assert y in multiset(t[1..]);
          var m := InTail(t, y);
        }
      }
      ConsTiesByPosition(t[0], rest);
      assert Insert(x, t) == [t[0]] + rest;
    }
  }

  /** A last entry that follows, in position, every earlier entry with its key keeps ties in position order. */
  lemma SnocTiesByPosition(t: seq<Keyed<nat>>, y: Keyed<nat>)
    requires TiesByPosition(t)
    requires forall c :: 0 <= c < |t| && t[c].key == y.key ==> t[c].item < y.item
    ensures TiesByPosition(t + [y])
  {
    forall a, b | 0 <= a < b < |t| + 1 && (t + [y])[a].key == (t + [y])[b].key
      ensures (t + [y])[a].item < (t + [y])[b].item
    {
      assert (t + [y])[a] == t[a];
      if b < |t| {
        assert (t + [y])[b] == t[b];
      }
    }
  }

  /** Sorting entries listed by increasing position keeps ties in position order (the sort is stable). */
  lemma {:induction false} SortDescTiesByPosition(s: seq<Keyed<nat>>)
    requires PositionsIncrease(s)
    ensures TiesByPosition(SortDesc(s))
  {
    if s != [] {
      assert PositionsIncrease(s[1..]) by {
        forall a, b | 0 <= a < b < |s[1..]| ensures s[1..][a] == s[a + 1] && s[1..][b] == s[b + 1] { }
      }
      SortDescTiesByPosition(s[1..]);
      var t := SortDesc(s[1..]);
      forall y | y in t && y.key == s[0].key ensures s[0].item < y.item {
        assert y in multiset(t);
        var m := InTail(s, y);
      }
      InsertTiesByPosition(s[0], t);
    }
  }

  /** The top `n` of entries listed by increasing position keep ties in position order. */
  lemma TopSliceTiesByPosition(s: seq<Keyed<nat>>, n: int)
    requires PositionsIncrease(s)
    ensures TiesByPosition(SliceTo(SortDesc(s), n))
  {
    SortDescTiesByPosition(s);
  }
}
