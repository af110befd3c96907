/**
 * Skill vectorisation: the sorted vocabulary of lower-cased skills and the
 * 0/1 membership matrix with one row per profile (`vectorize_profiles`).
 */
module SkillVectorizer {
  import opened Text
  import opened Profiles

  /** The lower-cased skills of the pool and of the target together. */
  function AllSkills(target: Profile, pool: seq<Profile>): set<string>
  {
    SkillUnion(pool) + SkillSet(target)
  }

  /** `v` lists the skill set `s` in increasing order, each skill once. */
  predicate IsVocabulary(v: seq<string>, s: set<string>)
  {
    StrictlySorted(v) && Elems(v) == s
  }

  /** Putting the least element of `s` in front of a listing of the rest lists `s`. */
  lemma ConsLeast(m: string, rest: seq<string>, s: set<string>)
    requires IsLeast(m, s) && IsVocabulary(rest, s - {m})
    ensures IsVocabulary([m] + rest, s)
  {
    forall j | 0 <= j < |rest| ensures StrLess(m, rest[j]) {
      assert rest[j] in Elems(rest);
      StrLessTotal(m, rest[j]);
    }
    var v := [m] + rest;
    forall i, j | 0 <= i < j < |v| ensures StrLess(v[i], v[j]) {
      if i > 0 {
        assert v[i] == rest[i - 1] && v[j] == rest[j - 1];
      }
    }
    assert Elems(v) == {m} + Elems(rest);
  }

  /** `sorted(list(s))`: the one increasing listing of `s`. */
  ghost function Vocabulary(s: set<string>): (v: seq<string>)
    ensures IsVocabulary(v, s)
    decreases |s|
  {
    if s == {} then
      []
    else
      LeastExists(s);
      var m :| IsLeast(m, s);
      var rest := Vocabulary(s - {m});
      ConsLeast(m, rest, s);
      [m] + rest
  }

  /** `v` lists, in increasing order, the part of `s` that is not in `rest`, all of it below `rest`. */
  predicate SortedSplit(v: seq<string>, rest: set<string>, s: set<string>)
  {
    && StrictlySorted(v)
    && Elems(v) + rest == s && Elems(v) !! rest
    && forall i, b :: 0 <= i < |v| && b in rest ==> StrLess(v[i], b)
  }

  lemma AppendLeast(v: seq<string>, rest: set<string>, s: set<string>, m: string)
    requires SortedSplit(v, rest, s) && IsLeast(m, rest)
    ensures SortedSplit(v + [m], rest - {m}, s)
  {
    forall b | b in rest - {m} ensures StrLess(m, b) {
      StrLessTotal(m, b);
    }
    assert Elems(v + [m]) == Elems(v) + {m};
  }

  /**
   * Builds `sorted(list(s))` by taking the least remaining skill each time;
   * the result is the vocabulary of `s`.
   */
  method SortSkills(s: set<string>) returns (v: seq<string>)
    ensures v == Vocabulary(s)
  {
    v := [];
    var rest := s;
    while rest != {}
      invariant SortedSplit(v, rest, s)
      decreases |rest|
    {
      LeastExists(rest);
      var m :| IsLeast(m, rest);
      AppendLeast(v, rest, s, m);
      v := v + [m];
      rest := rest - {m};
    }
    SortedUnique(v, Vocabulary(s));
  }

  /**
   * One row of the matrix: entry j is 1 exactly when vocabulary entry j is one
   * of the profile's lower-cased skills, and 0 otherwise.
   */
  function MembershipRow(p: Profile, vocab: seq<string>): (row: seq<int>)
    ensures |row| == |vocab|
    ensures forall j :: 0 <= j < |vocab| ==> row[j] == if vocab[j] in SkillSet(p) then 1 else 0
  {
    var lowered := LowerAll(p.skills);
    LowerSetOfLowerAll(p.skills);
    seq(|vocab|, j requires 0 <= j < |vocab| => if vocab[j] in lowered then 1 else 0)
  }

  /** The matrix `vectorize_profiles` returns, one row per profile. */
  function Rows(pool: seq<Profile>, vocab: seq<string>): (m: seq<seq<int>>)
    ensures |m| == |pool|
  {
    seq(|pool|, i requires 0 <= i < |pool| => MembershipRow(pool[i], vocab))
  }

  /** `vectorize_profiles`: appends one membership row per profile. */
  method VectorizeProfiles(profiles: seq<Profile>, vocab: seq<string>) returns (matrix: seq<seq<int>>)
    ensures |matrix| == |profiles|
    ensures forall i :: 0 <= i < |profiles| ==> |matrix[i]| == |vocab|
    ensures forall i, j :: 0 <= i < |profiles| && 0 <= j < |vocab| ==>
      matrix[i][j] == if vocab[j] in SkillSet(profiles[i]) then 1 else 0
  {
    matrix := [];
    for i := 0 to |profiles|
      invariant |matrix| == i
      invariant forall k :: 0 <= k < i ==> matrix[k] == MembershipRow(profiles[k], vocab)
    {
      var row := MembershipRow(profiles[i], vocab);
      matrix := matrix + [row];
    }
  }

  /** The dot product of two vectors of the same length. */
  function Dot(u: seq<int>, v: seq<int>): int
    requires |u| == |v|
  {
    if u == [] then 0 else u[0] * v[0] + Dot(u[1..], v[1..])
  }

  lemma RowTail(p: Profile, vocab: seq<string>)
    requires vocab != []
    ensures MembershipRow(p, vocab)[1..] == MembershipRow(p, vocab[1..])
  {
  }

  /** Profiles whose lower-cased skills are disjoint have orthogonal rows. */
  lemma {:induction false} DisjointSkillsOrthogonal(p: Profile, q: Profile, vocab: seq<string>)
    requires SkillSet(p) !! SkillSet(q)
    ensures Dot(MembershipRow(p, vocab), MembershipRow(q, vocab)) == 0
  {
    if vocab != [] {
      RowTail(p, vocab);
      RowTail(q, vocab);
      DisjointSkillsOrthogonal(p, q, vocab[1..]);
    }
  }

  /**
   * Over a vocabulary without repeats, the dot product of two rows is the
   * number of listed skills the two profiles share.
   */
  lemma {:induction false} DotCountsSharedSkills(p: Profile, q: Profile, vocab: seq<string>)
    requires StrictlySorted(vocab)
    ensures Dot(MembershipRow(p, vocab), MembershipRow(q, vocab)) == |SkillSet(p) * SkillSet(q) * Elems(vocab)|
  {
    var shared := SkillSet(p) * SkillSet(q);
    if vocab == [] {
      assert Elems(vocab) == {};
    } else {
      RowTail(p, vocab);
      RowTail(q, vocab);
      TailElems(vocab);
      DotCountsSharedSkills(p, q, vocab[1..]);
      assert vocab[0] !in Elems(vocab[1..]);
      assert Elems(vocab) == {vocab[0]} + Elems(vocab[1..]);
      CountWithOneMore(shared, vocab[0], Elems(vocab[1..]));
    }
  }

  /** Adding an element not yet present adds one to an intersection exactly when it is shared. */
  lemma CountWithOneMore(shared: set<string>, x: string, rest: set<string>)
    requires x !in rest
    ensures |shared * ({x} + rest)| == |shared * rest| + if x in shared then 1 else 0
  {
    if x in shared {
      assert shared * ({x} + rest) == (shared * rest) + {x};
    } else {
      assert shared * ({x} + rest) == shared * rest;
    }
  }

  /** Over the vocabulary of the pool, a row's dot product with itself counts the profile's skills. */
  lemma SelfDotCountsSkills(p: Profile, vocab: seq<string>)
    requires StrictlySorted(vocab) && SkillSet(p) <= Elems(vocab)
    ensures Dot(MembershipRow(p, vocab), MembershipRow(p, vocab)) == |SkillSet(p)|
  {
    DotCountsSharedSkills(p, p, vocab);
    assert SkillSet(p) * SkillSet(p) * Elems(vocab) == SkillSet(p);
  }
}
