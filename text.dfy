/**
 * String helpers the matching engine relies on: lower-casing of skill
 * names, Python's substring test (`kw in s`) and Python's ordering of
 * strings (used by `sorted` on the skill vocabulary).
 */
module Text {

  /** Lower-cases one character (ASCII capitals only). */
  function LowerChar(c: char): (r: char)
    ensures !('A' <= r <= 'Z')
    ensures 'a' <= c <= 'z' || !('A' <= c <= 'Z') ==> r == c
  {
    if 'A' <= c <= 'Z' then (c as int - 'A' as int + 'a' as int) as char else c
  }

  /** `s.lower()` */
  function Lower(s: string): (r: string)
    ensures |r| == |s|
    ensures forall i :: 0 <= i < |r| ==> !('A' <= r[i] <= 'Z')
  {
    seq(|s|, i requires 0 <= i < |s| => LowerChar(s[i]))
  }

  lemma LowerIdempotent(s: string)
    ensures Lower(Lower(s)) == Lower(s)
  {
  }

  /** `[s.lower() for s in xs]` */
  function LowerAll(xs: seq<string>): (r: seq<string>)
    ensures |r| == |xs|
    ensures forall i :: 0 <= i < |xs| ==> r[i] == Lower(xs[i])
  {
    seq(|xs|, i requires 0 <= i < |xs| => Lower(xs[i]))
  }

  /** `set(s.lower() for s in xs)` */
  function LowerSet(xs: seq<string>): set<string>
  {
    set s | s in xs :: Lower(s)
  }

  /** The elements of a sequence, as a set. */
  function Elems<T>(xs: seq<T>): set<T>
  {
    set x | x in xs
  }

  /** A string with no capital letter is its own lower-case form. */
  lemma LowerKeepsLowered(s: string)
    requires forall i :: 0 <= i < |s| ==> !('A' <= s[i] <= 'Z')
    ensures Lower(s) == s
  {
  }

  /** Skills already written in lower case are their own lower-cased set. */
  lemma LowerSetOfLowered(xs: seq<string>)
    requires forall s, i :: s in xs && 0 <= i < |s| ==> !('A' <= s[i] <= 'Z')
    ensures LowerSet(xs) == Elems(xs)
  {
    forall s | s in xs ensures Lower(s) == s {
      LowerKeepsLowered(s);
    }
  }

  lemma {:induction false} LowerSetSize(xs: seq<string>)
    ensures |LowerSet(xs)| <= |xs|
  {
    if xs != [] {
      LowerSetSize(xs[1..]);
      assert LowerSet(xs) == {Lower(xs[0])} + LowerSet(xs[1..]);
    }
  }

  lemma LowerSetOfLowerAll(xs: seq<string>)
    ensures LowerSet(xs) == Elems(LowerAll(xs))
  {
    forall s | s in LowerSet(xs) ensures s in Elems(LowerAll(xs)) {
      var i :| 0 <= i < |xs| && s == Lower(xs[i]);
      assert LowerAll(xs)[i] == s;
    }
  }

  /** `p` is a prefix of `s`. */
  predicate IsPrefix(p: string, s: string)
  {
    |p| <= |s| && p == s[..|p|]
  }

  /** Python's `needle in hay` on strings, scanning start positions left to right; the needle fits in the hay. */
  predicate Contains(hay: string, needle: string)
    ensures Contains(hay, needle) ==> |needle| <= |hay|
    decreases |hay|
  {
    IsPrefix(needle, hay) || (|hay| > 0 && Contains(hay[1..], needle))
  }

  /** `needle` occurs in `hay` starting at position `i`. */
  predicate OccursAt(hay: string, needle: string, i: int)
  {
    0 <= i <= |hay| - |needle| && hay[i..i + |needle|] == needle
  }

  /** `Contains` finds `needle` exactly when it occurs at some position of `hay`. */
  lemma {:induction false} ContainsIff(hay: string, needle: string)
    ensures Contains(hay, needle) <==> exists i :: OccursAt(hay, needle, i)
    decreases |hay|
  {
    if IsPrefix(needle, hay) {
      assert OccursAt(hay, needle, 0);
    } else if |hay| == 0 {
      assert |needle| > 0;
    } else {
      ContainsIff(hay[1..], needle);
      if exists i :: OccursAt(hay, needle, i) {
        var i :| OccursAt(hay, needle, i);
        assert i != 0;
        assert hay[1..][i - 1..i - 1 + |needle|] == hay[i..i + |needle|];
        assert OccursAt(hay[1..], needle, i - 1);
      }
      if exists i :: OccursAt(hay[1..], needle, i) {
        var i :| OccursAt(hay[1..], needle, i);
        assert hay[i + 1..i + 1 + |needle|] == hay[1..][i..i + |needle|];
        assert OccursAt(hay, needle, i + 1);
      }
    }
  }

  /** Python's `a < b` on strings: lexicographic by code point, a proper prefix first. */
  predicate StrLess(a: string, b: string)
    ensures StrLess(a, b) ==> a != b
    ensures IsPrefix(a, b) && |a| < |b| ==> StrLess(a, b)
    decreases |a|
  {
    if |a| == 0 then |b| > 0
    else if |b| == 0 then false
    else a[0] < b[0] || (a[0] == b[0] && StrLess(a[1..], b[1..]))
  }

  lemma {:induction false} StrLessIrreflexive(a: string)
    ensures !StrLess(a, a)
    decreases |a|
  {
    if |a| > 0 {
      StrLessIrreflexive(a[1..]);
    }
  }

  lemma {:induction false} StrLessTransitive(a: string, b: string, c: string)
    requires StrLess(a, b) && StrLess(b, c)
    ensures StrLess(a, c)
    decreases |a|
  {
    if |a| > 0 && a[0] == b[0] && b[0] == c[0] {
      StrLessTransitive(a[1..], b[1..], c[1..]);
    }
  }

  lemma {:induction false} StrLessTotal(a: string, b: string)
    ensures a == b || StrLess(a, b) || StrLess(b, a)
    decreases |a|
  {
    if |a| > 0 && |b| > 0 && a[0] == b[0] {
      StrLessTotal(a[1..], b[1..]);
      if a[1..] == b[1..] {
        assert a == [a[0]] + a[1..] && b == [b[0]] + b[1..];
      }
    }
  }

  lemma StrLessAsymmetric(a: string, b: string)
    requires StrLess(a, b)
    ensures !StrLess(b, a)
  {
    if StrLess(b, a) {
      StrLessTransitive(a, b, a);
      StrLessIrreflexive(a);
    }
  }

  /** A sequence of strings in strictly increasing order, hence without repeats. */
  predicate StrictlySorted(v: seq<string>)
  {
    forall i, j :: 0 <= i < j < |v| ==> StrLess(v[i], v[j])
  }

  /** `m` is a least element of `s`. */
  predicate IsLeast(m: string, s: set<string>)
  {
    m in s && forall y :: y in s ==> !StrLess(y, m)
  }

  lemma LeastExists(s: set<string>)
    requires s != {}
    ensures exists m :: IsLeast(m, s)
    decreases |s|
  {
    var x :| x in s;
    var rest := s - {x};
    if rest == {} {
      StrLessIrreflexive(x);
      assert s == {x};
      assert IsLeast(x, s);
    } else {
      LeastExists(rest);
      var m :| IsLeast(m, rest);
      if StrLess(x, m) {
        forall y | y in s ensures !StrLess(y, x) {
          if y == x {
            StrLessIrreflexive(x);
          } else if StrLess(y, x) {
            StrLessTransitive(y, x, m);
          }
        }
        assert IsLeast(x, s);
      } else {
        assert IsLeast(m, s);
      }
    }
  }

  /** A sorted sequence is determined by its set of elements. */
  lemma {:induction false} SortedUnique(v: seq<string>, w: seq<string>)
    requires StrictlySorted(v) && StrictlySorted(w)
    requires Elems(v) == Elems(w)
    ensures v == w
    decreases |v|
  {
    if v != [] {
      assert v[0] in Elems(w);
      assert w != [];
      assert w[0] in Elems(v);
      var k :| 0 <= k < |w| && w[k] == v[0];
      var m :| 0 <= m < |v| && v[m] == w[0];
      if k > 0 && m > 0 {
        StrLessAsymmetric(w[0], v[0]);
      }
      assert v[0] == w[0] by {
        if k > 0 && m == 0 { }
        if m > 0 && k == 0 { }
      }
      TailElems(v);
      TailElems(w);
      SortedUnique(v[1..], w[1..]);
      assert v == [v[0]] + v[1..] && w == [w[0]] + w[1..];
    } else {
      ElemsEmpty(w);
    }
  }

  lemma ElemsEmpty<T>(w: seq<T>)
    ensures Elems(w) == {} <==> w == []
  {
    if w != [] {
      assert w[0] in Elems(w);
    }
  }

  lemma TailElems(v: seq<string>)
    requires StrictlySorted(v) && v != []
    ensures Elems(v[1..]) == Elems(v) - {v[0]}
    ensures StrictlySorted(v[1..])
  {
    forall x | x in Elems(v[1..]) ensures x != v[0] {
      var i :| 0 <= i < |v[1..]| && v[1..][i] == x;
      assert StrLess(v[0], v[i + 1]);
      StrLessIrreflexive(v[0]);
    }
    assert v == [v[0]] + v[1..];
  }
}
