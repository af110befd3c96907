/**
 * `find_best_matches`: ranks a pool of profiles by the similarity of their
 * skill rows to the target's row, drops near-identical rows, keeps the top k
 * and then drops candidates whose availability cannot meet the target's.
 *
 * The similarity measure (cosine similarity in the source) is a parameter.
 */
module SimilarityRanker {
  import opened Text
  import opened Profiles
  import opened Sorting
  import opened SkillVectorizer

  /** A candidate this similar or more counts as the target's own (or an identical) record. */
  const SelfMatchThreshold: real := 0.999

  /** The similarity of the target row to each pool row, in pool order. */
  function Similarities(u: seq<int>, rows: seq<seq<int>>, sim: (seq<int>, seq<int>) -> real): (s: seq<real>)
    ensures |s| == |rows|
  {
    seq(|rows|, i requires 0 <= i < |rows| => sim(u, rows[i]))
  }

  /**
   * `[(i, s) for i, s in enumerate(sims) if s < 0.999]`: exactly the indices whose
   * similarity is below the threshold, each with its similarity.
   */
  function BelowThreshold(sims: seq<real>): (r: seq<Keyed<nat>>)
    ensures forall x :: x in r ==> x.item < |sims| && x.key == sims[x.item] && x.key < SelfMatchThreshold
    ensures forall i :: 0 <= i < |sims| && sims[i] < SelfMatchThreshold ==> Keyed(i, sims[i]) in r
    ensures PositionsIncrease(r)
  {
    if sims == [] then
      []
    else
      var last := |sims| - 1;
      var init := BelowThreshold(sims[..last]);
      assert forall x :: x in init ==> sims[..last][x.item] == sims[x.item];
      if sims[last] < SelfMatchThreshold then init + [Keyed(last, sims[last])] else init
  }

  /** `sorted(..., key=lambda x: x[1], reverse=True)[:top_k]` over the rows below the threshold. */
  function Ranking(u: seq<int>, rows: seq<seq<int>>, topK: int, sim: (seq<int>, seq<int>) -> real): seq<Keyed<nat>>
  {
    SliceTo(SortDesc(BelowThreshold(Similarities(u, rows, sim))), topK)
  }

  /** Two availability sets leave the pair matchable: one is empty, or they share a tag. */
  predicate CanMeet(a: set<string>, b: set<string>)
  {
    a == {} || b == {} || !(a !! b)
  }

  /**
   * The loop over the ranking: keeps, in ranking order, each entry whose candidate
   * can meet the target, as a (candidate, similarity) pair.
   */
  function KeepAvailable(target: Profile, pool: seq<Profile>, ranked: seq<Keyed<nat>>): (r: seq<Keyed<Profile>>)
    ensures |r| <= |ranked|
  {
    if ranked == [] then
      []
    else
      var e := ranked[|ranked| - 1];
      var kept := KeepAvailable(target, pool, ranked[..|ranked| - 1]);
      if e.item < |pool| && CanMeet(AvailSet(target), AvailSet(pool[e.item])) then
        kept + [Keyed(pool[e.item], e.key)]
      else
        kept
  }

  /**
   * The availability filter keeps exactly the ranked entries of pool members that
   * can meet the target, each paired with its similarity.
   */
  lemma {:induction false} KeepAvailableSound(target: Profile, pool: seq<Profile>, ranked: seq<Keyed<nat>>)
    ensures forall x :: x in KeepAvailable(target, pool, ranked) ==>
      CanMeet(AvailSet(target), AvailSet(x.item)) &&
      exists e :: e in ranked && e.item < |pool| && x == Keyed(pool[e.item], e.key)
    ensures forall e :: e in ranked && e.item < |pool| && CanMeet(AvailSet(target), AvailSet(pool[e.item])) ==>
      Keyed(pool[e.item], e.key) in KeepAvailable(target, pool, ranked)
  {
    if ranked != [] {
      var init := ranked[..|ranked| - 1];
      KeepAvailableSound(target, pool, init);
      assert ranked == init + [ranked[|ranked| - 1]];
    }
  }

  lemma KeepAvailableStep(target: Profile, pool: seq<Profile>, ranked: seq<Keyed<nat>>, i: nat)
    requires i < |ranked|
    ensures KeepAvailable(target, pool, ranked[..i + 1]) ==
      if ranked[i].item < |pool| && CanMeet(AvailSet(target), AvailSet(pool[ranked[i].item])) then
        KeepAvailable(target, pool, ranked[..i]) + [Keyed(pool[ranked[i].item], ranked[i].key)]
      else
        KeepAvailable(target, pool, ranked[..i])
  {
    assert ranked[..i + 1][..i] == ranked[..i];
  }

  /** The filter keeps no similarity below a bound that every ranked entry meets. */
  lemma {:induction false} KeepAvailableAtLeast(target: Profile, pool: seq<Profile>, ranked: seq<Keyed<nat>>, b: real)
    requires forall i :: 0 <= i < |ranked| ==> ranked[i].key >= b
    ensures forall x :: x in KeepAvailable(target, pool, ranked) ==> x.key >= b
  {
    if ranked != [] {
      KeepAvailableAtLeast(target, pool, ranked[..|ranked| - 1], b);
    }
  }

  /** Filtering a ranking by availability keeps it ordered by similarity. */
  lemma {:induction false} KeepAvailableOrdered(target: Profile, pool: seq<Profile>, ranked: seq<Keyed<nat>>)
    requires NonIncreasing(ranked)
    ensures NonIncreasing(KeepAvailable(target, pool, ranked))
    ensures forall x :: x in KeepAvailable(target, pool, ranked) ==> x.key >= ranked[|ranked| - 1].key
  {
    if ranked != [] {
      var init := ranked[..|ranked| - 1];
      var e := ranked[|ranked| - 1];
      assert NonIncreasing(init);
      KeepAvailableOrdered(target, pool, init);
      KeepAvailableAtLeast(target, pool, init, e.key);
      KeepAvailableAtLeast(target, pool, ranked, e.key);
      if e.item < |pool| && CanMeet(AvailSet(target), AvailSet(pool[e.item])) {
        SnocOrdered(KeepAvailable(target, pool, init), Keyed(pool[e.item], e.key));
      }
    }
  }

  /**
   * The ranked entries the availability filter keeps, as (pool position, similarity)
   * pairs: entry `j` is where match `j` of `KeepAvailable` comes from.
   */
  function KeptEntries(target: Profile, pool: seq<Profile>, ranked: seq<Keyed<nat>>): (r: seq<Keyed<nat>>)
    ensures |r| == |KeepAvailable(target, pool, ranked)|
    ensures forall j :: 0 <= j < |r| ==>
      r[j].item < |pool| && KeepAvailable(target, pool, ranked)[j] == Keyed(pool[r[j].item], r[j].key)
    ensures forall x :: x in r ==> x in ranked
  {
    if ranked == [] then
      []
    else
      var e := ranked[|ranked| - 1];
      var kept := KeptEntries(target, pool, ranked[..|ranked| - 1]);
      if e.item < |pool| && CanMeet(AvailSet(target), AvailSet(pool[e.item])) then kept + [e] else kept
  }

  /** Filtering keeps entries with equal similarity in the order of their pool positions. */
  lemma {:induction false} KeptEntriesTiesByPosition(target: Profile, pool: seq<Profile>, ranked: seq<Keyed<nat>>)
    requires TiesByPosition(ranked)
    ensures TiesByPosition(KeptEntries(target, pool, ranked))
  {
    if ranked != [] {
      var n := |ranked| - 1;
      var init := ranked[..n];
      var e := ranked[n];
      assert TiesByPosition(init) by {
        forall a, b | 0 <= a < b < |init| ensures init[a] == ranked[a] && init[b] == ranked[b] { }
      }
      KeptEntriesTiesByPosition(target, pool, init);
      var kept := KeptEntries(target, pool, init);
      if e.item < |pool| && CanMeet(AvailSet(target), AvailSet(pool[e.item])) {
        forall c | 0 <= c < |kept| && kept[c].key == e.key ensures kept[c].item < e.item {
          assert kept[c] in init;
          var a :| 0 <= a < |init| && init[a] == kept[c];
          assert ranked[a] == kept[c];
        }
        SnocTiesByPosition(kept, e);
      }
    }
  }

  /** What `find_best_matches` returns (see the method below). */
  ghost function BestMatches(target: Profile, pool: seq<Profile>, topK: int, sim: (seq<int>, seq<int>) -> real): seq<Keyed<Profile>>
  {
    var vocab := Vocabulary(AllSkills(target, pool));
    if vocab == [] || pool == [] then
      []
    else
      KeepAvailable(target, pool, Ranking(MembershipRow(target, vocab), Rows(pool, vocab), topK, sim))
  }

  /**
   * `find_best_matches(user_profile, profiles, top_k)`, with the similarity measure
   * passed in: the vocabulary is built from the pool and the target, the pool is
   * vectorised, ranked and cut to `top_k`, and only then filtered by availability.
   */
  method FindBestMatches(target: Profile, profiles: seq<Profile>, topK: int, sim: (seq<int>, seq<int>) -> real)
    returns (matches: seq<Keyed<Profile>>)
    ensures matches == BestMatches(target, profiles, topK, sim)
  {
    var allSkills: set<string> := {};
    for i := 0 to |profiles|
      invariant allSkills == SkillUnion(profiles[..i])
    {
      SkillUnionStep(profiles, i);
      allSkills := allSkills + SkillSet(profiles[i]);
    }
    assert profiles[..|profiles|] == profiles;
    allSkills := allSkills + SkillSet(target);
    var vocab := SortSkills(allSkills);
    if vocab == [] {
      return [];
    }
    var matrix := VectorizeProfiles(profiles, vocab);
    var userVec := MembershipRow(target, vocab);
    // `matrix.size > 0 and user_vec.size > 0`; every row is as long as the non-empty vocabulary
    if |matrix| > 0 && |userVec| > 0 {
      MatrixIsRows(matrix, profiles, vocab);
      var sims := Similarities(userVec, matrix, sim);
      var idxSim := SliceTo(SortDesc(BelowThreshold(sims)), topK);
      var userAvail := AvailSet(target);
      assert AllSkills(target, profiles) == allSkills;
      assert idxSim == Ranking(userVec, Rows(profiles, vocab), topK, sim);
      matches := [];
      for i := 0 to |idxSim|
        invariant matches == KeepAvailable(target, profiles, idxSim[..i])
      {
        KeepAvailableStep(target, profiles, idxSim, i);
        var idx := idxSim[i].item;
        var s := idxSim[i].key;
        if idx < |profiles| {
          var candidate := profiles[idx];
          var candAvail := AvailSet(candidate);
          if userAvail != {} && candAvail != {} && userAvail !! candAvail {
            continue;
          }
          matches := matches + [Keyed(candidate, s)];
        }
      }
      assert idxSim[..|idxSim|] == idxSim;
      return;
    }
    return [];
  }

  lemma MatrixIsRows(matrix: seq<seq<int>>, profiles: seq<Profile>, vocab: seq<string>)
    requires |matrix| == |profiles|
    requires forall i :: 0 <= i < |profiles| ==> |matrix[i]| == |vocab|
    requires forall i, j :: 0 <= i < |profiles| && 0 <= j < |vocab| ==>
      matrix[i][j] == if vocab[j] in SkillSet(profiles[i]) then 1 else 0
    ensures matrix == Rows(profiles, vocab)
  {
    forall i | 0 <= i < |profiles| ensures matrix[i] == Rows(profiles, vocab)[i] {
      assert |matrix[i]| == |vocab|;
    }
  }

  /** With no skills anywhere there is nothing to rank. */
  lemma BestMatchesEmptyVocabulary(target: Profile, pool: seq<Profile>, topK: int, sim: (seq<int>, seq<int>) -> real)
    requires AllSkills(target, pool) == {}
    ensures BestMatches(target, pool, topK, sim) == []
  {
    ElemsEmpty(Vocabulary(AllSkills(target, pool)));
  }

  /**
   * The result has at most `top_k` entries, each a pool member with a similarity
   * below the threshold whose availability can meet the target's, ordered from
   * the most similar down.
   */
  lemma BestMatchesShape(target: Profile, pool: seq<Profile>, topK: int, sim: (seq<int>, seq<int>) -> real)
    ensures topK >= 0 ==> |BestMatches(target, pool, topK, sim)| <= topK
    ensures NonIncreasing(BestMatches(target, pool, topK, sim))
    ensures forall x :: x in BestMatches(target, pool, topK, sim) ==>
      x.key < SelfMatchThreshold && x.item in pool && CanMeet(AvailSet(target), AvailSet(x.item))
  {
    var vocab := Vocabulary(AllSkills(target, pool));
    if vocab != [] && pool != [] {
      var sims := Similarities(MembershipRow(target, vocab), Rows(pool, vocab), sim);
      var ranked := Ranking(MembershipRow(target, vocab), Rows(pool, vocab), topK, sim);
      TopSlice(BelowThreshold(sims), topK);
      KeepAvailableOrdered(target, pool, ranked);
      KeepAvailableSound(target, pool, ranked);
    }
  }

  /** The pool positions and similarities the best matches come from, in result order. */
  ghost function BestMatchPositions(target: Profile, pool: seq<Profile>, topK: int, sim: (seq<int>, seq<int>) -> real): seq<Keyed<nat>>
  {
    var vocab := Vocabulary(AllSkills(target, pool));
    if vocab == [] || pool == [] then
      []
    else
      KeptEntries(target, pool, Ranking(MembershipRow(target, vocab), Rows(pool, vocab), topK, sim))
  }

  /**
   * Ties keep pool order (the sort is stable): match `j` is pool member `p[j].item`
   * with its similarity, and matches with equal similarity come in increasing pool position.
   */
  lemma BestMatchesTiesKeepPoolOrder(target: Profile, pool: seq<Profile>, topK: int, sim: (seq<int>, seq<int>) -> real)
    ensures var p := BestMatchPositions(target, pool, topK, sim);
      |p| == |BestMatches(target, pool, topK, sim)| &&
      (forall j :: 0 <= j < |p| ==>
        (p[j].item < |pool| && p[j].key == SimilarityOf(target, pool, sim, p[j].item) &&
         BestMatches(target, pool, topK, sim)[j] == Keyed(pool[p[j].item], p[j].key))) &&
      TiesByPosition(p)
  {
    var vocab := Vocabulary(AllSkills(target, pool));
    if vocab != [] && pool != [] {
      var sims := Similarities(MembershipRow(target, vocab), Rows(pool, vocab), sim);
      var ranked := Ranking(MembershipRow(target, vocab), Rows(pool, vocab), topK, sim);
      TopSlice(BelowThreshold(sims), topK);
      TopSliceTiesByPosition(BelowThreshold(sims), topK);
      KeptEntriesTiesByPosition(target, pool, ranked);
      var p := KeptEntries(target, pool, ranked);
      forall j | 0 <= j < |p| ensures p[j].key == SimilarityOf(target, pool, sim, p[j].item) {
        assert p[j] in ranked;
      }
    }
  }

  /** The pairs below the threshold, before the sort and the cut to `top_k`. */
  ghost function Eligible(target: Profile, pool: seq<Profile>, sim: (seq<int>, seq<int>) -> real): seq<Keyed<nat>>
  {
    var vocab := Vocabulary(AllSkills(target, pool));
    BelowThreshold(Similarities(MembershipRow(target, vocab), Rows(pool, vocab), sim))
  }

  /**
   * Nothing qualifying is dropped when the cut does not bind: with at most `top_k`
   * pool members below the threshold, every one of them that can meet the target is returned.
   */
  lemma BestMatchesComplete(target: Profile, pool: seq<Profile>, topK: int, sim: (seq<int>, seq<int>) -> real, i: nat)
    requires AllSkills(target, pool) != {}
    requires i < |pool| && SimilarityOf(target, pool, sim, i) < SelfMatchThreshold
    requires CanMeet(AvailSet(target), AvailSet(pool[i]))
    requires |Eligible(target, pool, sim)| <= topK
    ensures Keyed(pool[i], SimilarityOf(target, pool, sim, i)) in BestMatches(target, pool, topK, sim)
  {
    var vocab := Vocabulary(AllSkills(target, pool));
    ElemsEmpty(vocab);
    var sims := Similarities(MembershipRow(target, vocab), Rows(pool, vocab), sim);
    var below := BelowThreshold(sims);
    var ranked := Ranking(MembershipRow(target, vocab), Rows(pool, vocab), topK, sim);
    assert Keyed(i, sims[i]) in below;
    TopSliceKeepsAll(below, topK, Keyed(i, sims[i]));
    KeepAvailableSound(target, pool, ranked);
  }

  /** The similarity the ranking gives pool member `i`. */
  ghost function SimilarityOf(target: Profile, pool: seq<Profile>, sim: (seq<int>, seq<int>) -> real, i: nat): real
    requires i < |pool|
  {
    var vocab := Vocabulary(AllSkills(target, pool));
    sim(MembershipRow(target, vocab), MembershipRow(pool[i], vocab))
  }

  /**
   * Nothing is passed over for a less similar candidate: a pool member below the
   * threshold that can meet the target but is not returned is no more similar than
   * any returned candidate (it fell outside the top k).
   */
  lemma BestMatchesAreTopRanked(target: Profile, pool: seq<Profile>, topK: int, sim: (seq<int>, seq<int>) -> real, i: nat)
    requires i < |pool| && SimilarityOf(target, pool, sim, i) < SelfMatchThreshold
    requires CanMeet(AvailSet(target), AvailSet(pool[i]))
    requires Keyed(pool[i], SimilarityOf(target, pool, sim, i)) !in BestMatches(target, pool, topK, sim)
    ensures forall y :: y in BestMatches(target, pool, topK, sim) ==> y.key >= SimilarityOf(target, pool, sim, i)
  {
    var vocab := Vocabulary(AllSkills(target, pool));
    if vocab != [] {
      var sims := Similarities(MembershipRow(target, vocab), Rows(pool, vocab), sim);
      var below := BelowThreshold(sims);
      var ranked := Ranking(MembershipRow(target, vocab), Rows(pool, vocab), topK, sim);
      var e := Keyed(i, sims[i]);
      assert e in below;
      KeepAvailableSound(target, pool, ranked);
      assert e !in ranked;
      TopSlice(below, topK);
      forall y | y in BestMatches(target, pool, topK, sim) ensures y.key >= sims[i] {
        var d :| d in ranked && d.item < |pool| && y == Keyed(pool[d.item], d.key);
      }
    }
  }

  /** Profiles with the same lower-cased skills have the same row. */
  lemma SameSkillsSameRow(p: Profile, q: Profile, vocab: seq<string>)
    requires SkillSet(p) == SkillSet(q)
    ensures MembershipRow(p, vocab) == MembershipRow(q, vocab)
  {
  }

  /** A profile with a skill the vocabulary lists has a 1 in its row. */
  lemma RowHasOne(p: Profile, vocab: seq<string>)
    requires SkillSet(p) != {} && SkillSet(p) <= Elems(vocab)
    ensures 1 in MembershipRow(p, vocab)
  {
    var s :| s in SkillSet(p);
    var j :| 0 <= j < |vocab| && vocab[j] == s;
    assert MembershipRow(p, vocab)[j] == 1;
  }

  /**
   * A similarity measure that scores every non-zero row against itself at the
   * threshold or above (as cosine similarity does) keeps out every candidate whose
   * lower-cased skills are exactly the target's, provided the target has a skill.
   */
  lemma IdenticalSkillsExcluded(target: Profile, pool: seq<Profile>, topK: int, sim: (seq<int>, seq<int>) -> real)
    requires forall u :: 1 in u ==> sim(u, u) >= SelfMatchThreshold
    requires SkillSet(target) != {}
    ensures forall x :: x in BestMatches(target, pool, topK, sim) ==> SkillSet(x.item) != SkillSet(target)
  {
    var vocab := Vocabulary(AllSkills(target, pool));
    if vocab != [] && pool != [] {
      var u := MembershipRow(target, vocab);
      var rows := Rows(pool, vocab);
      var sims := Similarities(u, rows, sim);
      var ranked := Ranking(u, rows, topK, sim);
      TopSlice(BelowThreshold(sims), topK);
      KeepAvailableSound(target, pool, ranked);
      RowHasOne(target, vocab);
      assert sim(u, u) >= SelfMatchThreshold;
      forall x | x in BestMatches(target, pool, topK, sim) ensures SkillSet(x.item) != SkillSet(target) {
        var d :| d in ranked && d.item < |pool| && x == Keyed(pool[d.item], d.key);
        assert d.key == sim(u, rows[d.item]) < SelfMatchThreshold;
        if SkillSet(pool[d.item]) == SkillSet(target) {
          SameSkillsSameRow(pool[d.item], target, vocab);
          assert false;
        }
      }
    }
  }
}
