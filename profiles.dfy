/**
 * The records the matching engine works on: hacker profiles and the
 * category -> domain -> skills taxonomy, plus the two experience tables.
 */
module Profiles {
  import opened Text

  datatype Option<T> = None | Some(value: T)

  /**
   * A hacker's profile as the user store hands it over, with every absent field
   * already replaced by the default the engine reads it with: no skills, no
   * availability, experience "Intermediate", no domains. Skills keep the user's
   * spelling and repeats; availability and domain tags are compared as written.
   */
  datatype Profile = Profile(
    name: string,
    skills: seq<string>,
    availability: seq<string>,
    experience: string,
    domains: seq<string>)

  /** The profile's skills, lower-cased, as a set. */
  function SkillSet(p: Profile): set<string>
  {
    LowerSet(p.skills)
  }

  /** `set(p.get('availability', []))`: tags compared exactly as written. */
  function AvailSet(p: Profile): set<string>
  {
    Elems(p.availability)
  }

  /** The union of the lower-cased skills of all profiles. */
  function SkillUnion(ps: seq<Profile>): set<string>
  {
    if ps == [] then {} else SkillUnion(ps[..|ps| - 1]) + SkillSet(ps[|ps| - 1])
  }

  lemma {:induction false} SkillUnionMembers(ps: seq<Profile>, s: string)
    ensures s in SkillUnion(ps) <==> exists i :: 0 <= i < |ps| && s in SkillSet(ps[i])
  {
    if ps != [] {
      var init := ps[..|ps| - 1];
      SkillUnionMembers(init, s);
      if s in SkillUnion(init) {
        var i :| 0 <= i < |init| && s in SkillSet(init[i]);
        assert ps[i] == init[i];
      }
      if exists i :: 0 <= i < |ps| && s in SkillSet(ps[i]) {
        var i :| 0 <= i < |ps| && s in SkillSet(ps[i]);
        if i < |init| {
          assert init[i] == ps[i];
        }
      }
    }
  }

  lemma SkillUnionStep(ps: seq<Profile>, i: nat)
    requires i < |ps|
    ensures SkillUnion(ps[..i + 1]) == SkillUnion(ps[..i]) + SkillSet(ps[i])
  {
    assert ps[..i + 1][..i] == ps[..i];
  }

  /** The ordinal `exp_levels.get(level, 2)`: Beginner 1 up to Expert 4, anything else 2. */
  function ExperienceOrdinal(level: string): (n: int)
    ensures 1 <= n <= 4
    ensures level !in {"Beginner", "Intermediate", "Advanced", "Expert"} ==> n == 2
  {
    if level == "Beginner" then 1
    else if level == "Intermediate" then 2
    else if level == "Advanced" then 3
    else if level == "Expert" then 4
    else 2
  }

  /** The role bonus `exp_bonus.get(level, 1)`: Expert 3, Advanced 2, Intermediate 1, Beginner 0.5, anything else 1. */
  function ExperienceBonus(level: string): (b: real)
    ensures 0.5 <= b <= 3.0
    ensures level !in {"Beginner", "Intermediate", "Advanced", "Expert"} ==> b == 1.0
  {
    if level == "Expert" then 3.0
    else if level == "Advanced" then 2.0
    else if level == "Intermediate" then 1.0
    else if level == "Beginner" then 0.5
    else 1.0
  }

  /** Both experience tables rank the four known levels in the same order. */
  lemma ExperienceTablesAgree(a: string, b: string)
    requires a in {"Beginner", "Intermediate", "Advanced", "Expert"}
    requires b in {"Beginner", "Intermediate", "Advanced", "Expert"}
    ensures ExperienceOrdinal(a) < ExperienceOrdinal(b) <==> ExperienceBonus(a) < ExperienceBonus(b)
  {
  }

  /** One domain of the taxonomy and the canonical skills it asks for. */
  datatype Domain = Domain(name: string, skills: seq<string>)

  /** One category of the taxonomy, its domains in the order the store lists them. */
  datatype Category = Category(name: string, domains: seq<Domain>)

  /** Categories in the order the store lists them. */
  type Taxonomy = seq<Category>
}
