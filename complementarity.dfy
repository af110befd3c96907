/**
 * `create_instant_team_match`: scores every other profile of the pool as an
 * instant teammate for the target, rewarding skills the two do not share,
 * common availability and a difference in experience, and returns the three
 * best. The pool, read from the user store in the source, is a parameter.
 */
module ComplementarityScorer {
  import opened Text
  import opened Profiles
  import opened Sorting

  /** The most matches an instant match returns. */
  const InstantMatchLimit: int := 3

  function Abs(n: int): nat
  {
    if n < 0 then -n else n
  }

  /** The availability term: the number of shared tags when both list some, 0.5 otherwise. */
  function AvailabilityOverlap(target: Profile, cand: Profile): real
  {
    var ua := AvailSet(target);
    var ca := AvailSet(cand);
    if ua != {} && ca != {} then |ua * ca| as real else 0.5
  }

  /** The difference of the two experience ordinals (unknown levels count as 2). */
  function ExperienceGap(target: Profile, cand: Profile): nat
  {
    Abs(ExperienceOrdinal(target.experience) - ExperienceOrdinal(cand.experience))
  }

  /**
   * The score of `cand` as an instant teammate for `target`:
   * |symmetric difference of the skills| + 2 * availability term
   * + 0.3 * experience gap - 0.5 * |shared skills|.
   */
  function InstantScore(target: Profile, cand: Profile): (s: real)
    ensures s >= -0.5 * |SkillSet(target) * SkillSet(cand)| as real
  {
    var a := SkillSet(target);
    var b := SkillSet(cand);
    var complement := |(a - b) + (b - a)|;
    var overlapPenalty := |a * b| as real * 0.5;
    complement as real + AvailabilityOverlap(target, cand) * 2.0
      + ExperienceGap(target, cand) as real * 0.3 - overlapPenalty
  }

  lemma SetSizes(a: set<string>, b: set<string>)
    ensures |a| == |a - b| + |a * b|
    ensures |(a - b) + (b - a)| == |a - b| + |b - a|
  {
    assert a == (a - b) + (a * b);
    assert (a - b) !! (a * b);
    assert (a - b) !! (b - a);
  }

  /**
   * In counts: each profile's distinct skills, less two and a half for every
   * skill they share, plus the availability and experience terms.
   */
  lemma InstantScoreByCounts(target: Profile, cand: Profile)
    ensures InstantScore(target, cand) ==
      (|SkillSet(target)| + |SkillSet(cand)|) as real - 2.5 * |SkillSet(target) * SkillSet(cand)| as real
      + 2.0 * AvailabilityOverlap(target, cand) + 0.3 * ExperienceGap(target, cand) as real
  {
    var a := SkillSet(target);
    var b := SkillSet(cand);
    SetSizes(a, b);
    SetSizes(b, a);
    assert b * a == a * b;
  }

  /** The score does not depend on which of the two is the target. */
  lemma InstantScoreSymmetric(p: Profile, q: Profile)
    ensures InstantScore(p, q) == InstantScore(q, p)
  {
    InstantScoreByCounts(p, q);
    InstantScoreByCounts(q, p);
    assert SkillSet(q) * SkillSet(p) == SkillSet(p) * SkillSet(q);
    assert AvailSet(q) * AvailSet(p) == AvailSet(p) * AvailSet(q);
  }

  /** A candidate that shares no skill with the target, where either has one, always scores above 0. */
  lemma DisjointSkillsScorePositive(target: Profile, cand: Profile)
    requires SkillSet(target) !! SkillSet(cand)
    requires SkillSet(target) + SkillSet(cand) != {}
    ensures InstantScore(target, cand) > 0.0
  {
    InstantScoreByCounts(target, cand);
    assert SkillSet(target) * SkillSet(cand) == {};
    if SkillSet(target) == {} {
      assert |SkillSet(cand)| > 0;
    } else {
      assert |SkillSet(target)| > 0;
    }
  }

  /**
   * A candidate with exactly the target's skills, the same experience and no
   * common availability although both list some, scores at most 0 and is dropped.
   */
  lemma TwinWithoutCommonTimeScoresNothing(target: Profile, cand: Profile)
    requires SkillSet(cand) == SkillSet(target)
    requires ExperienceOrdinal(cand.experience) == ExperienceOrdinal(target.experience)
    requires AvailSet(target) != {} && AvailSet(cand) != {} && AvailSet(target) !! AvailSet(cand)
    ensures InstantScore(target, cand) <= 0.0
  {
    assert AvailSet(target) * AvailSet(cand) == {};
    assert SkillSet(target) - SkillSet(cand) == {};
  }

  /** The two profiles of the example below. */
  function ExampleTarget(): Profile
  {
    Profile("A", ["react", "css"], ["evenings"], "Intermediate", [])
  }

  function ExampleCandidate(): Profile
  {
    Profile("B", ["python", "sql"], ["evenings", "weekends"], "Intermediate", [])
  }

  lemma ExampleTargetSkills()
    ensures SkillSet(ExampleTarget()) == {"react", "css"}
  {
    var xs := ExampleTarget().skills;
    assert forall s, i :: s in xs && 0 <= i < |s| ==> !('A' <= s[i] <= 'Z');
    LowerSetOfLowered(xs);
    assert Elems(xs) == {"react", "css"};
  }

  lemma ExampleCandidateSkills()
    ensures SkillSet(ExampleCandidate()) == {"python", "sql"}
  {
    var xs := ExampleCandidate().skills;
    assert forall s, i :: s in xs && 0 <= i < |s| ==> !('A' <= s[i] <= 'Z');
    LowerSetOfLowered(xs);
    assert Elems(xs) == {"python", "sql"};
  }

  lemma ExampleSharedTime()
    ensures AvailabilityOverlap(ExampleTarget(), ExampleCandidate()) == 1.0
  {
    assert AvailSet(ExampleTarget()) == {"evenings"};
    assert AvailSet(ExampleCandidate()) == {"evenings", "weekends"};
    assert AvailSet(ExampleTarget()) * AvailSet(ExampleCandidate()) == {"evenings"};
  }

  lemma ExampleCounts()
    ensures |SkillSet(ExampleTarget())| == 2 && |SkillSet(ExampleCandidate())| == 2
    ensures |SkillSet(ExampleTarget()) * SkillSet(ExampleCandidate())| == 0
    ensures AvailabilityOverlap(ExampleTarget(), ExampleCandidate()) == 1.0
    ensures ExperienceGap(ExampleTarget(), ExampleCandidate()) == 0
  {
    ExampleTargetSkills();
    ExampleCandidateSkills();
    var sa: set<string> := {"react", "css"};
    var sb: set<string> := {"python", "sql"};
    assert sa * sb == {} by {
      assert "react" !in sb && "css" !in sb;
    }
    ExampleSharedTime();
  }

  /**
   * Scores from the documented example: {react, css} against {python, sql}, one
   * shared availability tag, both Intermediate: 4 + 2 * 1 + 0 - 0 = 6.
   */
  lemma InstantScoreExample()
    ensures InstantScore(ExampleTarget(), ExampleCandidate()) == 6.0
  {
    ExampleCounts();
    InstantScoreByCounts(ExampleTarget(), ExampleCandidate());
  }

  /**
   * The loop of `create_instant_team_match` over a pool prefix: every profile
   * not named like the target whose score is above 0, with that score, in pool order.
   */
  function Candidates(target: Profile, pool: seq<Profile>): seq<Keyed<Profile>>
  {
    if pool == [] then
      []
    else
      var c := pool[|pool| - 1];
      var kept := Candidates(target, pool[..|pool| - 1]);
      if c.name != target.name && InstantScore(target, c) > 0.0 then kept + [Keyed(c, InstantScore(target, c))] else kept
  }

  /** The candidates are exactly the other-named pool members scoring above 0, each with its score. */
  lemma {:induction false} CandidatesExactly(target: Profile, pool: seq<Profile>)
    ensures forall x :: x in Candidates(target, pool) <==>
      x.item in pool && x.item.name != target.name && x.key == InstantScore(target, x.item) && x.key > 0.0
  {
    if pool != [] {
      var init := pool[..|pool| - 1];
      CandidatesExactly(target, init);
      assert pool == init + [pool[|pool| - 1]];
    }
  }

  /** What `create_instant_team_match` returns: None for a pool of fewer than 2, else the top 3. */
  function InstantMatches(target: Profile, pool: seq<Profile>): Option<seq<Keyed<Profile>>>
  {
    if |pool| < 2 then None else Some(SliceTo(SortDesc(Candidates(target, pool)), InstantMatchLimit))
  }

  /**
   * `create_instant_team_match(user_profile)` with the pool `get_all_users()` would
   * read passed in: skips the target's own name, scores the rest, keeps scores above
   * 0, sorts them (stably) from the highest down and returns the first three.
   */
  method CreateInstantTeamMatch(target: Profile, users: seq<Profile>) returns (r: Option<seq<Keyed<Profile>>>)
    ensures r == InstantMatches(target, users)
  {
    if |users| < 2 {
      return None;
    }
    var userSkills := SkillSet(target);
    var matches: seq<Keyed<Profile>> := [];
    for i := 0 to |users|
      invariant matches == Candidates(target, users[..i])
    {
      assert users[..i + 1][..i] == users[..i];
      var candidate := users[i];
      if candidate.name == target.name {
        continue;
      }
      var candidateSkills := SkillSet(candidate);
      var complementScore := |(userSkills - candidateSkills) + (candidateSkills - userSkills)|;
      var overlapPenalty := |userSkills * candidateSkills| as real * 0.5;
      var userAvail := AvailSet(target);
      var candAvail := AvailSet(candidate);
      var availScore := if userAvail != {} && candAvail != {} then |userAvail * candAvail| as real else 0.5;
      var userExp := ExperienceOrdinal(target.experience);
      var candExp := ExperienceOrdinal(candidate.experience);
      var expDiversity := Abs(userExp - candExp) as real * 0.3;
      var totalScore := complementScore as real + availScore * 2.0 + expDiversity - overlapPenalty;
      assert totalScore == InstantScore(target, candidate);
      if totalScore > 0.0 {
        matches := matches + [Keyed(candidate, totalScore)];
      }
    }
    assert users[..|users|] == users;
    matches := SortDesc(matches);
    return Some(SliceTo(matches, InstantMatchLimit));
  }

  /** None exactly when the pool holds fewer than two profiles. */
  lemma InstantMatchesNoneIff(target: Profile, pool: seq<Profile>)
    ensures InstantMatches(target, pool).None? <==> |pool| < 2
  {
  }

  /**
   * At most three matches, from the highest score down, each a pool member not
   * named like the target, carrying its score, which is above 0.
   */
  lemma InstantMatchesSound(target: Profile, pool: seq<Profile>)
    requires |pool| >= 2
    ensures |InstantMatches(target, pool).value| <= InstantMatchLimit
    ensures NonIncreasing(InstantMatches(target, pool).value)
    ensures forall x :: x in InstantMatches(target, pool).value ==>
      x.item in pool && x.item.name != target.name && x.key == InstantScore(target, x.item) && x.key > 0.0
  {
    TopSlice(Candidates(target, pool), InstantMatchLimit);
    CandidatesExactly(target, pool);
  }

  /**
   * The matches are the best three: a qualifying pool member that is left out
   * scores no higher than any returned one, and nothing qualifying is left out
   * when at most three qualify.
   */
  lemma InstantMatchesAreBest(target: Profile, pool: seq<Profile>, c: Profile)
    requires |pool| >= 2
    requires c in pool && c.name != target.name && InstantScore(target, c) > 0.0
    ensures Keyed(c, InstantScore(target, c)) !in InstantMatches(target, pool).value ==>
      forall y :: y in InstantMatches(target, pool).value ==> y.key >= InstantScore(target, c)
    ensures |Candidates(target, pool)| <= InstantMatchLimit ==>
      Keyed(c, InstantScore(target, c)) in InstantMatches(target, pool).value
  {
    var cands := Candidates(target, pool);
    CandidatesExactly(target, pool);
    assert Keyed(c, InstantScore(target, c)) in cands;
    TopSlice(cands, InstantMatchLimit);
    if |cands| <= InstantMatchLimit {
      assert SliceTo(SortDesc(cands), InstantMatchLimit) == SortDesc(cands);
      assert Keyed(c, InstantScore(target, c)) in multiset(SortDesc(cands));
    }
  }

  /** Equal scores keep the pool's order (Python's sort is stable). */
  lemma InstantMatchesStable(target: Profile, pool: seq<Profile>, k: real)
    requires |pool| >= 2
    ensures KeyRun(InstantMatches(target, pool).value, k) <= KeyRun(Candidates(target, pool), k)
  {
    TopSlice(Candidates(target, pool), InstantMatchLimit);
  }
}
