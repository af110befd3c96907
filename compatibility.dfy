/**
 * `calculate_team_compatibility`: a 0-100 score for a team, mixing skill
 * diversity, variety of experience levels, availability every member shares
 * and diversity of domains.
 */
module CompatibilityScorer {
  import opened Text
  import opened Profiles

  /** The number of availability options the availability term divides by. */
  const AvailabilityOptions: real := 5.0

  /** The cap on the final score. */
  const MaxCompatibility: real := 100.0

  /** `sum(len(member.get('skills', [])) for member in members)`: skills as listed, repeats included. */
  function TotalSkills(ms: seq<Profile>): nat
  {
    if ms == [] then 0 else TotalSkills(ms[..|ms| - 1]) + |ms[|ms| - 1].skills|
  }

  /** There are never more distinct lower-cased skills than listed ones. */
  lemma {:induction false} SkillUnionAtMostTotal(ms: seq<Profile>)
    ensures |SkillUnion(ms)| <= TotalSkills(ms)
  {
    if ms != [] {
      var init := ms[..|ms| - 1];
      var last := ms[|ms| - 1];
      SkillUnionAtMostTotal(init);
      LowerSetSize(last.skills);
      SubadditiveSize(SkillUnion(init), SkillSet(last));
    }
  }

  lemma SubadditiveSize<T>(a: set<T>, b: set<T>)
    ensures |a + b| <= |a| + |b|
  {
    assert a + b == a + (b - a);
    assert |b - a| <= |b| by {
      assert b == (b - a) + (b * a);
    }
  }

  /** `len(all_skills) / (total_skills + 1)`, or 0 when nobody lists a skill. */
  function SkillDiversity(ms: seq<Profile>): real
  {
    var total := TotalSkills(ms);
    if total > 0 then |SkillUnion(ms)| as real / (total + 1) as real else 0.0
  }

  lemma FractionBelowOne(a: real, b: real)
    requires 0.0 <= a < b
    ensures 0.0 <= a / b < 1.0
  {
  }

  lemma FractionAtMostOne(a: real, b: real)
    requires 0.0 <= a <= b && b > 0.0
    ensures 0.0 <= a / b <= 1.0
  {
  }

  /** Skill diversity lies in [0, 1): the distinct skills never reach the listed ones plus one. */
  lemma SkillDiversityBelowOne(ms: seq<Profile>)
    ensures 0.0 <= SkillDiversity(ms) < 1.0
  {
    SkillUnionAtMostTotal(ms);
    var total := TotalSkills(ms);
    if total > 0 {
      FractionBelowOne(|SkillUnion(ms)| as real, (total + 1) as real);
    }
  }

  /** The distinct experience levels of the team, as written. */
  function Levels(ms: seq<Profile>): set<string>
  {
    set m | m in ms :: m.experience
  }

  lemma {:induction false} LevelsSize(ms: seq<Profile>)
    ensures |Levels(ms)| <= |ms|
    ensures ms != [] ==> |Levels(ms)| >= 1
  {
    if ms != [] {
      LevelsSize(ms[1..]);
      assert Levels(ms) == {ms[0].experience} + Levels(ms[1..]);
      SubadditiveSize({ms[0].experience}, Levels(ms[1..]));
    }
  }

  /** `len(set(exp_levels)) / len(exp_levels)`, or 0 for an empty team. */
  function ExperienceVariety(ms: seq<Profile>): real
  {
    if ms != [] then |Levels(ms)| as real / |ms| as real else 0.0
  }

  /** Experience variety lies in (0, 1] for a non-empty team: 1 when every level differs. */
  lemma ExperienceVarietyBounds(ms: seq<Profile>)
    requires ms != []
    ensures 0.0 < ExperienceVariety(ms) <= 1.0
  {
    LevelsSize(ms);
    FractionAtMostOne(|Levels(ms)| as real, |ms| as real);
  }

  /** `[set(m['availability']) for m in members if m.get('availability')]` */
  function AvailSets(ms: seq<Profile>): seq<set<string>>
  {
    if ms == [] then
      []
    else
      var last := ms[|ms| - 1];
      AvailSets(ms[..|ms| - 1]) + (if last.availability != [] then [AvailSet(last)] else [])
  }

  /** The collected sets are exactly the availability of the members who list some. */
  lemma {:induction false} AvailSetsExactly(ms: seq<Profile>)
    ensures forall s :: s in AvailSets(ms) <==> exists m :: m in ms && m.availability != [] && s == AvailSet(m)
    ensures forall m :: m in ms && m.availability != [] ==> AvailSet(m) in AvailSets(ms)
  {
    if ms != [] {
      var init := ms[..|ms| - 1];
      AvailSetsExactly(init);
      assert ms == init + [ms[|ms| - 1]];
    }
  }

  /** `set.intersection(*sets)`: the tags in every set. */
  function Intersection(sets: seq<set<string>>): set<string>
    requires sets != []
  {
    if |sets| == 1 then sets[0] else Intersection(sets[..|sets| - 1]) * sets[|sets| - 1]
  }

  lemma {:induction false} IntersectionMembers(sets: seq<set<string>>, x: string)
    requires sets != []
    ensures x in Intersection(sets) <==> forall i :: 0 <= i < |sets| ==> x in sets[i]
  {
    if |sets| > 1 {
      var init := sets[..|sets| - 1];
      IntersectionMembers(init, x);
      assert forall i :: 0 <= i < |init| ==> init[i] == sets[i];
    }
  }

  /** The availability term: shared tags over 5 when someone lists availability, 0.5 when nobody does. */
  function AvailabilityScore(ms: seq<Profile>): real
  {
    var sets := AvailSets(ms);
    if sets != [] then |Intersection(sets)| as real / AvailabilityOptions else 0.5
  }

  /**
   * The tags counted are exactly those every member who lists availability
   * shares; members who list none do not restrict them.
   */
  lemma CommonAvailabilityShared(ms: seq<Profile>, x: string)
    requires AvailSets(ms) != []
    ensures x in Intersection(AvailSets(ms)) <==>
      forall m :: m in ms && m.availability != [] ==> x in AvailSet(m)
  {
    var sets := AvailSets(ms);
    IntersectionMembers(sets, x);
    AvailSetsExactly(ms);
    if x in Intersection(sets) {
      forall m | m in ms && m.availability != [] ensures x in AvailSet(m) {
        assert AvailSet(m) in sets;
      }
    } else {
      var i :| 0 <= i < |sets| && x !in sets[i];
      assert sets[i] in sets;
    }
  }

  /** The union of every member's domain tags, as written. */
  function DomainUnion(ms: seq<Profile>): set<string>
  {
    if ms == [] then {} else DomainUnion(ms[..|ms| - 1]) + Elems(ms[|ms| - 1].domains)
  }

  /** `len(domains) / len(members)`, or 0 for an empty team. */
  function DomainDiversity(ms: seq<Profile>): real
  {
    if ms != [] then |DomainUnion(ms)| as real / |ms| as real else 0.0
  }

  /** The weighted sum before the cap: 40% skills, 20% each experience, availability and domains, in percent. */
  function RawCompatibility(ms: seq<Profile>): real
  {
    (SkillDiversity(ms) * 0.4 + ExperienceVariety(ms) * 0.2 + AvailabilityScore(ms) * 0.2 + DomainDiversity(ms) * 0.2) * 100.0
  }

  /** What `calculate_team_compatibility` returns: 0 below two members, else the capped weighted sum. */
  function TeamCompatibility(ms: seq<Profile>): real
  {
    if |ms| < 2 then 0.0
    else if RawCompatibility(ms) < MaxCompatibility then RawCompatibility(ms)
    else MaxCompatibility
  }

  /**
   * `calculate_team_compatibility(members)`: gathers the lower-cased skills and
   * the domains with loops, computes the four terms and caps their weighted sum at 100.
   */
  method CalculateTeamCompatibility(members: seq<Profile>) returns (score: real)
    ensures score == TeamCompatibility(members)
  {
    if |members| < 2 {
      return 0.0;
    }
    var allSkills: set<string> := {};
    for i := 0 to |members|
      invariant allSkills == SkillUnion(members[..i])
    {
      SkillUnionStep(members, i);
      allSkills := allSkills + SkillSet(members[i]);
    }
    assert members[..|members|] == members;
    var totalSkills := TotalSkills(members);
    var skillDiversity := if totalSkills > 0 then |allSkills| as real / (totalSkills + 1) as real else 0.0;

    var expVariety := |Levels(members)| as real / |members| as real;

    var availSets := AvailSets(members);
    var availScore: real;
    if availSets != [] {
      var commonAvail := Intersection(availSets);
      availScore := |commonAvail| as real / AvailabilityOptions;
    } else {
      availScore := 0.5;
    }

    var domains: set<string> := {};
    for i := 0 to |members|
      invariant domains == DomainUnion(members[..i])
    {
      assert members[..i + 1][..i] == members[..i];
      domains := domains + Elems(members[i].domains);
    }
    var domainDiversity := |domains| as real / |members| as real;

    assert skillDiversity == SkillDiversity(members) && expVariety == ExperienceVariety(members);
    assert availScore == AvailabilityScore(members) && domainDiversity == DomainDiversity(members);
    var totalScore := (skillDiversity * 0.4 + expVariety * 0.2 + availScore * 0.2 + domainDiversity * 0.2) * 100.0;
    score := if totalScore < MaxCompatibility then totalScore else MaxCompatibility;
  }

  /** A team of fewer than two scores 0. */
  lemma SmallTeamScoresZero(ms: seq<Profile>)
    requires |ms| < 2
    ensures TeamCompatibility(ms) == 0.0
  {
  }

  /** The score always lies between 0 and 100. */
  lemma CompatibilityBounds(ms: seq<Profile>)
    ensures 0.0 <= TeamCompatibility(ms) <= MaxCompatibility
  {
    if |ms| >= 2 {
      SkillDiversityBelowOne(ms);
      ExperienceVarietyBounds(ms);
      NonNegativeFraction(|DomainUnion(ms)| as real, |ms| as real);
      assert DomainDiversity(ms) >= 0.0;
      if AvailSets(ms) != [] {
        NonNegativeFraction(|Intersection(AvailSets(ms))| as real, AvailabilityOptions);
      }
      assert AvailabilityScore(ms) >= 0.0;
      WeightedSumNonNegative(SkillDiversity(ms), ExperienceVariety(ms), AvailabilityScore(ms), DomainDiversity(ms));
    }
  }

  lemma NonNegativeFraction(a: real, b: real)
    requires a >= 0.0 && b > 0.0
    ensures a / b >= 0.0
  {
  }

  lemma WeightedSumNonNegative(a: real, b: real, c: real, d: real)
    requires a >= 0.0 && b >= 0.0 && c >= 0.0 && d >= 0.0
    ensures (a * 0.4 + b * 0.2 + c * 0.2 + d * 0.2) * 100.0 >= 0.0
  {
  }

  lemma AtLeastFive(x: real, n: real)
    requires n > 0.0 && x >= 5.0 * n
    ensures x / n >= 5.0
  {
  }

  lemma WeightedSumReachesCap(a: real, b: real, c: real, d: real)
    requires a >= 0.0 && b >= 0.0 && c >= 0.0 && d >= 5.0
    ensures (a * 0.4 + b * 0.2 + c * 0.2 + d * 0.2) * 100.0 >= MaxCompatibility
  {
  }

  /**
   * The cap is needed: a team listing on average five or more distinct domains
   * per member reaches 100 from the domain term alone and is held there.
   */
  lemma DomainRichTeamSaturates(ms: seq<Profile>)
    requires |ms| >= 2 && |DomainUnion(ms)| >= 5 * |ms|
    ensures RawCompatibility(ms) >= MaxCompatibility
    ensures TeamCompatibility(ms) == MaxCompatibility
  {
    SkillDiversityBelowOne(ms);
    ExperienceVarietyBounds(ms);
    AtLeastFive(|DomainUnion(ms)| as real, |ms| as real);
    assert AvailabilityScore(ms) >= 0.0;
    WeightedSumReachesCap(SkillDiversity(ms), ExperienceVariety(ms), AvailabilityScore(ms), DomainDiversity(ms));
  }
}
