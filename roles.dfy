/**
 * `generate_team_roles`: for each of seven fixed roles, scores every team
 * member by how many of the role's keywords occur inside their lower-cased
 * skills plus an experience bonus, and assigns the role to the first member
 * with the highest score.
 */
module RoleAssigner {
  import opened Text
  import opened Profiles
  import opened Sorting

  datatype Role = TeamLead | TechLead | Designer | BackendDev | FrontendDev | DataSpecialist | BusinessAnalyst

  /** The roles in the order the role table lists them. */
  const Catalogue: seq<Role> := [TeamLead, TechLead, Designer, BackendDev, FrontendDev, DataSpecialist, BusinessAnalyst]

  function RoleName(r: Role): string
  {
    match r
    case TeamLead => "Team Lead"
    case TechLead => "Tech Lead"
    case Designer => "Designer"
    case BackendDev => "Backend Dev"
    case FrontendDev => "Frontend Dev"
    case DataSpecialist => "Data Specialist"
    case BusinessAnalyst => "Business Analyst"
  }

  /** The keywords a role looks for, all lower-case. */
  function Keywords(r: Role): seq<string>
  {
    match r
    case TeamLead => ["leadership", "project management", "communication"]
    case TechLead => ["programming", "software development", "architecture"]
    case Designer => ["ui/ux", "design", "figma", "adobe", "graphics"]
    case BackendDev => ["python", "java", "node.js", "database", "api"]
    case FrontendDev => ["react", "javascript", "html", "css", "vue"]
    case DataSpecialist => ["data science", "machine learning", "analytics", "sql"]
    case BusinessAnalyst => ["business", "strategy", "marketing", "finance"]
  }

  /** The catalogue holds every role once, under seven distinct names. */
  lemma CatalogueComplete(r: Role)
    ensures r in Catalogue
    ensures forall i, j :: 0 <= i < j < |Catalogue| ==> RoleName(Catalogue[i]) != RoleName(Catalogue[j])
  {
    assert RoleName(TeamLead)[1] == 'e' && RoleName(TechLead)[1] == 'e';
    assert RoleName(TeamLead)[2] == 'a' && RoleName(TechLead)[2] == 'c';
    assert RoleName(Designer)[0] == 'D' && RoleName(DataSpecialist)[1] == 'a';
    assert RoleName(Designer)[1] == 'e';
    assert RoleName(BackendDev)[0] == 'B' && RoleName(BusinessAnalyst)[1] == 'u';
    assert RoleName(BackendDev)[1] == 'a';
  }

  /** `any(kw in ms for ms in skills)`: the keyword occurs inside one of the skills. */
  predicate Mentioned(kw: string, skills: seq<string>)
  {
    exists ms :: ms in skills && Contains(ms, kw)
  }

  /** `sum(1 for kw in keywords if any(kw in ms for ms in skills))` */
  function Hits(keywords: seq<string>, skills: seq<string>): (n: nat)
    ensures n <= |keywords|
  {
    if keywords == [] then 0 else (if Mentioned(keywords[0], skills) then 1 else 0) + Hits(keywords[1..], skills)
  }

  /** Every keyword counts exactly when all of them occur, none exactly when none occurs. */
  lemma {:induction false} HitsExtremes(keywords: seq<string>, skills: seq<string>)
    ensures Hits(keywords, skills) == |keywords| <==> forall i :: 0 <= i < |keywords| ==> Mentioned(keywords[i], skills)
    ensures Hits(keywords, skills) == 0 <==> forall i :: 0 <= i < |keywords| ==> !Mentioned(keywords[i], skills)
  {
    if keywords != [] {
      HitsExtremes(keywords[1..], skills);
      assert forall i :: 1 <= i < |keywords| ==> keywords[i] == keywords[1..][i - 1];
    }
  }

  /**
   * A member's score for a role: the keyword hits in their lower-cased skills plus
   * the experience bonus. It is at least the lowest bonus and at most all keywords
   * plus the highest bonus.
   */
  function RoleScore(r: Role, m: Profile): (s: real)
    ensures 0.5 <= s <= |Keywords(r)| as real + 3.0
  {
    Hits(Keywords(r), LowerAll(m.skills)) as real + ExperienceBonus(m.experience)
  }

  lemma MentionedGrows(kw: string, p: Profile, q: Profile)
    requires Elems(p.skills) <= Elems(q.skills)
    requires Mentioned(kw, LowerAll(p.skills))
    ensures Mentioned(kw, LowerAll(q.skills))
  {
    var ms :| ms in LowerAll(p.skills) && Contains(ms, kw);
    var i :| 0 <= i < |p.skills| && LowerAll(p.skills)[i] == ms;
    assert p.skills[i] in Elems(p.skills);
    var j :| 0 <= j < |q.skills| && q.skills[j] == p.skills[i];
    assert LowerAll(q.skills)[j] == ms;
  }

  lemma {:induction false} HitsGrow(keywords: seq<string>, p: Profile, q: Profile)
    requires Elems(p.skills) <= Elems(q.skills)
    ensures Hits(keywords, LowerAll(p.skills)) <= Hits(keywords, LowerAll(q.skills))
  {
    if keywords != [] {
      HitsGrow(keywords[1..], p, q);
      if Mentioned(keywords[0], LowerAll(p.skills)) {
        MentionedGrows(keywords[0], p, q);
      }
    }
  }

  /** Listing more skills at the same experience never lowers a member's score for a role. */
  lemma RoleScoreMonotone(r: Role, p: Profile, q: Profile)
    requires Elems(p.skills) <= Elems(q.skills) && p.experience == q.experience
    ensures RoleScore(r, p) <= RoleScore(r, q)
  {
    HitsGrow(Keywords(r), p, q);
  }

  /**
   * Keywords are found as substrings: a "JavaScript" skill earns the Backend Dev
   * keyword "java", so such a member scores at least one hit for that role.
   */
  lemma JavaScriptCountsForBackend(p: Profile)
    requires p.skills == ["JavaScript"]
    ensures RoleScore(BackendDev, p) >= 1.0 + ExperienceBonus(p.experience)
  {
    var lowered := LowerAll(p.skills);
    assert lowered[0] == Lower("JavaScript");
    assert Lower("JavaScript") == "javascript";
    assert IsPrefix("java", "javascript");
    assert lowered[0] in lowered && Contains(lowered[0], "java");
    assert Keywords(BackendDev)[1] == "java";
    HitsExtremes(Keywords(BackendDev), lowered);
  }

  /** The member a role goes to and that member's score; `member` is None until someone beats 0. */
  datatype Pick = Pick(member: Option<Profile>, score: real)

  /** The team paired with each member's score for role `r`, in team order. */
  function Scored(r: Role, ms: seq<Profile>): (s: seq<Keyed<Profile>>)
    ensures |s| == |ms|
  {
    seq(|ms|, j requires 0 <= j < |ms| => Keyed(ms[j], RoleScore(r, ms[j])))
  }

  /** The scan of the inner loop over scored members: a strictly higher score replaces the best so far. */
  function FirstBest(s: seq<Keyed<Profile>>): Pick
  {
    if s == [] then
      Pick(None, 0.0)
    else
      var prev := FirstBest(s[..|s| - 1]);
      var last := s[|s| - 1];
      if last.key > prev.score then Pick(Some(last.item), last.key) else prev
  }

  /** Entry `i` has the highest key, and every entry before it a lower one. */
  predicate IsFirstMax(s: seq<Keyed<Profile>>, i: int)
  {
    && 0 <= i < |s|
    && (forall j :: 0 <= j < |s| ==> s[j].key <= s[i].key)
    && (forall j :: 0 <= j < i ==> s[j].key < s[i].key)
  }

  /** With positive keys the scan picks the first entry with the highest key. */
  lemma {:induction false} FirstBestIsFirstMax(s: seq<Keyed<Profile>>) returns (i: nat)
    requires s != [] && forall j :: 0 <= j < |s| ==> s[j].key > 0.0
    ensures IsFirstMax(s, i) && FirstBest(s) == Pick(Some(s[i].item), s[i].key)
  {
    var n := |s| - 1;
    var init := s[..n];
    if n == 0 {
      i := 0;
    } else {
      var k := FirstBestIsFirstMax(init);
      assert init[k] == s[k];
      i := if s[n].key > s[k].key then n else k;
    }
  }

  /** What the inner loop of `generate_team_roles` ends with for role `r`. */
  function Best(r: Role, ms: seq<Profile>): Pick
  {
    FirstBest(Scored(r, ms))
  }

  /** Member `i` has the highest score for `r` on the team, and everyone before them scores lower. */
  predicate IsFirstBest(r: Role, ms: seq<Profile>, i: int)
  {
    && 0 <= i < |ms|
    && (forall j :: 0 <= j < |ms| ==> RoleScore(r, ms[j]) <= RoleScore(r, ms[i]))
    && (forall j :: 0 <= j < i ==> RoleScore(r, ms[j]) < RoleScore(r, ms[i]))
  }

  /**
   * On a non-empty team the role goes to the first member with the highest
   * score, and the recorded score is that highest score.
   */
  lemma BestIsFirstMaximum(r: Role, ms: seq<Profile>) returns (i: nat)
    requires ms != []
    ensures IsFirstBest(r, ms, i)
    ensures Best(r, ms) == Pick(Some(ms[i]), RoleScore(r, ms[i]))
  {
    var s := Scored(r, ms);
    assert forall j :: 0 <= j < |s| ==> s[j].key == RoleScore(r, ms[j]) > 0.0;
    i := FirstBestIsFirstMax(s);
    assert s[i] == Keyed(ms[i], RoleScore(r, ms[i]));
    forall j | 0 <= j < |ms| ensures RoleScore(r, ms[j]) <= RoleScore(r, ms[i]) {
      assert s[j].key == RoleScore(r, ms[j]);
    }
    forall j | 0 <= j < i ensures RoleScore(r, ms[j]) < RoleScore(r, ms[i]) {
      assert s[j].key == RoleScore(r, ms[j]);
    }
  }

  /** An empty team leaves every role unassigned. */
  lemma BestOfEmpty(r: Role, ms: seq<Profile>)
    ensures Best(r, ms).member.None? <==> ms == []
  {
    if ms != [] {
      var _ := BestIsFirstMaximum(r, ms);
    }
  }

  /** One role's entry of the result: its keywords, and who holds it with what score, if anyone. */
  datatype Slot = Slot(keywords: seq<string>, holder: Option<string>, score: Option<real>)

  /** The entry before any member is considered. */
  function Unfilled(r: Role): Slot
  {
    Slot(Keywords(r), None, None)
  }

  /** The entry for role `r` once the whole team has been scored. */
  function SlotFor(r: Role, ms: seq<Profile>): Slot
  {
    var p := Best(r, ms);
    if p.member.Some? then Slot(Keywords(r), Some(p.member.value.name), Some(p.score)) else Unfilled(r)
  }

  /** The names of the seven roles, the keys of the result. */
  function RoleNames(): set<string>
  {
    set r | r in Catalogue :: RoleName(r)
  }

  /** The role table `generate_team_roles` starts from: every role with its keywords and nobody assigned. */
  function InitialRoles(): map<string, Slot>
  {
    map[
      RoleName(TeamLead) := Unfilled(TeamLead),
      RoleName(TechLead) := Unfilled(TechLead),
      RoleName(Designer) := Unfilled(Designer),
      RoleName(BackendDev) := Unfilled(BackendDev),
      RoleName(FrontendDev) := Unfilled(FrontendDev),
      RoleName(DataSpecialist) := Unfilled(DataSpecialist),
      RoleName(BusinessAnalyst) := Unfilled(BusinessAnalyst)]
  }

  /** The table once the first `i` roles of the catalogue have been decided. */
  predicate TableAfter(roles: map<string, Slot>, ms: seq<Profile>, i: nat)
  {
    && roles.Keys == RoleNames()
    && forall j :: 0 <= j < |Catalogue| ==>
         roles[RoleName(Catalogue[j])] == if j < i then SlotFor(Catalogue[j], ms) else Unfilled(Catalogue[j])
  }

  lemma InitialLookup(r: Role)
    ensures RoleName(r) in InitialRoles() && InitialRoles()[RoleName(r)] == Unfilled(r)
  {
    assert |RoleName(TeamLead)| == 9 && |RoleName(Designer)| == 8 && |RoleName(BackendDev)| == 11;
    assert |RoleName(FrontendDev)| == 12 && |RoleName(DataSpecialist)| == 15 && |RoleName(BusinessAnalyst)| == 16;
    assert RoleName(TeamLead)[2] != RoleName(TechLead)[2];
  }

  lemma InitialTable(ms: seq<Profile>)
    ensures TableAfter(InitialRoles(), ms, 0)
  {
    forall r ensures RoleName(r) in InitialRoles() && InitialRoles()[RoleName(r)] == Unfilled(r) {
      InitialLookup(r);
    }
    CatalogueComplete(TeamLead);
    assert InitialRoles().Keys == RoleNames();
  }

  lemma TableStep(roles: map<string, Slot>, ms: seq<Profile>, i: nat)
    requires i < |Catalogue| && TableAfter(roles, ms, i)
    ensures SlotFor(Catalogue[i], ms).holder.Some? ==>
      TableAfter(roles[RoleName(Catalogue[i]) := SlotFor(Catalogue[i], ms)], ms, i + 1)
    ensures SlotFor(Catalogue[i], ms).holder.None? ==> TableAfter(roles, ms, i + 1)
  {
    CatalogueComplete(TeamLead);
  }

  lemma TableDone(roles: map<string, Slot>, ms: seq<Profile>)
    requires TableAfter(roles, ms, |Catalogue|)
    ensures forall r :: RoleName(r) in roles && roles[RoleName(r)] == SlotFor(r, ms)
  {
    forall r ensures RoleName(r) in roles && roles[RoleName(r)] == SlotFor(r, ms) {
      CatalogueComplete(r);
      var j :| 0 <= j < |Catalogue| && Catalogue[j] == r;
    }
  }

  /**
   * `generate_team_roles(team_members)`: starts from the role table with nobody
   * assigned, then for each role scans the team, keeping the first strictly best
   * member, and records their name and score.
   */
  method GenerateTeamRoles(members: seq<Profile>) returns (roles: map<string, Slot>)
    ensures roles.Keys == RoleNames()
    ensures forall r :: RoleName(r) in roles && roles[RoleName(r)] == SlotFor(r, members)
  {
    roles := InitialRoles();
    InitialTable(members);
    for i := 0 to |Catalogue|
      invariant TableAfter(roles, members, i)
    {
      var role := Catalogue[i];
      var bestScore: real := 0.0;
      var bestMember: Option<Profile> := None;
      for k := 0 to |members|
        invariant Pick(bestMember, bestScore) == FirstBest(Scored(role, members)[..k])
      {
        assert Scored(role, members)[..k + 1][..k] == Scored(role, members)[..k];
        var member := members[k];
        var memberSkills := LowerAll(member.skills);
        var score := Hits(Keywords(role), memberSkills) as real;
        score := score + ExperienceBonus(member.experience);
        if score > bestScore {
          bestScore := score;
          bestMember := Some(member);
        }
      }
      assert Scored(role, members)[..|members|] == Scored(role, members);
      TableStep(roles, members, i);
      if bestMember.Some? {
        roles := roles[RoleName(role) := Slot(Keywords(role), Some(bestMember.value.name), Some(bestScore))];
      }
    }
    TableDone(roles, members);
  }

  /** Every role is filled exactly when the team is not empty. */
  lemma RolesFilledIffTeam(r: Role, ms: seq<Profile>)
    ensures SlotFor(r, ms).holder.Some? <==> ms != []
    ensures SlotFor(r, ms).keywords == Keywords(r)
  {
    BestOfEmpty(r, ms);
  }

  /** A one-member team gives that member every role, each with their own score. */
  lemma SingleMemberTakesEveryRole(r: Role, m: Profile)
    ensures SlotFor(r, [m]) == Slot(Keywords(r), Some(m.name), Some(RoleScore(r, m)))
  {
    var i := BestIsFirstMaximum(r, [m]);
  }
}
