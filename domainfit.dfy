/**
 * Fit of a skill selection to the domains of the taxonomy: `analyze_fit` for
 * one chosen domain, `calculate_domain_scores` for every domain at once, and
 * the score bands `get_score_class` and `get_score_label` display.
 */
module DomainFitAnalyzer {
  import opened Text
  import opened Profiles

  /** The four bands the recommendation, the badge class and the badge label all use. */
  datatype Band = Excellent | Good | Average | Poor

  /** Bands from 80, 60 and 40 up, in percent. */
  function BandOf(score: real): (b: Band)
    ensures b == Excellent <==> score >= 80.0
    ensures b == Good <==> 60.0 <= score < 80.0
    ensures b == Average <==> 40.0 <= score < 60.0
    ensures b == Poor <==> score < 40.0
  {
    if score >= 80.0 then Excellent
    else if score >= 60.0 then Good
    else if score >= 40.0 then Average
    else Poor
  }

  /** A better band has a higher rank. */
  function Rank(b: Band): nat
  {
    match b
    case Poor => 0
    case Average => 1
    case Good => 2
    case Excellent => 3
  }

  /** A higher score never lands in a lower band. */
  lemma BandMonotone(s: real, t: real)
    requires s <= t
    ensures Rank(BandOf(s)) <= Rank(BandOf(t))
  {
  }

  /** `get_score_class(score)`: the CSS class of the score badge. */
  function ScoreClass(score: real): (c: string)
    ensures c in {"score-excellent", "score-good", "score-average", "score-poor"}
  {
    if score >= 80.0 then "score-excellent"
    else if score >= 60.0 then "score-good"
    else if score >= 40.0 then "score-average"
    else "score-poor"
  }

  /** `get_score_label(score)`: the text of the score badge. */
  function ScoreLabel(score: real): (l: string)
    ensures l in {"Excellent", "Good", "Average", "Needs Work"}
  {
    if score >= 80.0 then "Excellent"
    else if score >= 60.0 then "Good"
    else if score >= 40.0 then "Average"
    else "Needs Work"
  }

  /**
   * The badge class and the badge label follow the same bands as the fit
   * recommendation: one band, one class, one label.
   */
  lemma ClassAndLabelFollowBand(score: real)
    ensures BandOf(score) == Excellent <==> ScoreClass(score) == "score-excellent" && ScoreLabel(score) == "Excellent"
    ensures BandOf(score) == Good <==> ScoreClass(score) == "score-good" && ScoreLabel(score) == "Good"
    ensures BandOf(score) == Average <==> ScoreClass(score) == "score-average" && ScoreLabel(score) == "Average"
    ensures BandOf(score) == Poor <==> ScoreClass(score) == "score-poor" && ScoreLabel(score) == "Needs Work"
  {
    assert "score-excellent" != "score-good" && "score-excellent" != "score-average" && "score-excellent" != "score-poor";
    assert "score-good"[6] != "score-average"[6] && "score-good" != "score-poor";
    assert |"score-average"| != |"score-poor"|;
  }

  /** The first category of the taxonomy with the given name (names are the keys of a dictionary). */
  function FindCategory(tax: Taxonomy, name: string): (r: Option<Category>)
    ensures r.Some? ==> r.value in tax && r.value.name == name
    ensures r.None? <==> forall c :: c in tax ==> c.name != name
  {
    if tax == [] then None
    else if tax[0].name == name then Some(tax[0])
    else FindCategory(tax[1..], name)
  }

  /** The first domain of a category's domains with the given name (names are the keys of a dictionary). */
  function FindIn(ds: seq<Domain>, name: string): (r: Option<Domain>)
    ensures r.Some? ==> r.value in ds && r.value.name == name
    ensures r.None? <==> forall d :: d in ds ==> d.name != name
  {
    if ds == [] then None
    else if ds[0].name == name then Some(ds[0])
    else FindIn(ds[1..], name)
  }

  /** `(part / whole) * 100`: the share of `part` in `whole`, in percent. */
  function Percent(part: nat, whole: nat): (r: real)
    requires whole > 0
    ensures r >= 0.0
    ensures part <= whole ==> r <= 100.0
  {
    assert part <= whole ==> part as real / whole as real <= 1.0;
    part as real / whole as real * 100.0
  }

  /** The denominator `analyze_fit` divides by: the domain's size, but never less than 10. */
  const FitFloor: nat := 10

  /** The dictionary `analyze_fit` returns, its recommendation reduced to its band. */
  datatype FitReport = FitReport(score: real, matched: set<string>, missing: set<string>, band: Band)

  /** The fit of lower-cased user skills `u` to the lower-cased domain skills `d`. */
  function Fit(d: set<string>, u: set<string>): (r: FitReport)
    ensures r.matched + r.missing == d && r.matched !! r.missing
    ensures r.matched <= u && r.missing !! u
    ensures 0.0 <= r.score <= 100.0
  {
    MatchedAtMostDomain(d, u);
    var matched := u * d;
    var missing := d - u;
    var maxScore := if |d| > FitFloor then |d| else FitFloor;
    var raw := Percent(|matched|, maxScore);
    var score := if raw < 100.0 then raw else 100.0;
    FitReport(score, matched, missing, BandOf(score))
  }

  /**
   * `analyze_fit(cat_sel, dom_sel, selected_skills, categories)`: None for an empty
   * taxonomy or an unknown category or domain, otherwise the fit to that domain.
   */
  function AnalyzeFit(catSel: string, domSel: string, selected: seq<string>, tax: Taxonomy): (r: Option<FitReport>)
    ensures r.Some? ==>
      (exists c, d :: c in tax && c.name == catSel && d in c.domains && d.name == domSel &&
        r.value == Fit(LowerSet(d.skills), LowerSet(selected)))
  {
    if tax == [] then None
    else
      match FindCategory(tax, catSel)
      case None => None
      case Some(c) =>
        match FindIn(c.domains, domSel)
        case None => None
        case Some(d) => Some(Fit(LowerSet(d.skills), LowerSet(selected)))
  }

  /** There is a report exactly when the taxonomy holds the category and the category holds the domain. */
  lemma AnalyzeFitDefinedIff(catSel: string, domSel: string, selected: seq<string>, tax: Taxonomy)
    ensures AnalyzeFit(catSel, domSel, selected, tax).Some? <==>
      exists c :: c in tax && c.name == catSel && FindCategory(tax, catSel) == Some(c)
        && exists d :: d in c.domains && d.name == domSel
  {
    var fc := FindCategory(tax, catSel);
    if fc.Some? {
      var c := fc.value;
      if FindIn(c.domains, domSel).Some? {
        assert FindIn(c.domains, domSel).value in c.domains;
      }
    }
  }

  lemma MatchedAtMostDomain(d: set<string>, u: set<string>)
    ensures |u * d| <= |d|
  {
    assert d == (u * d) + (d - u);
    assert (u * d) !! (d - u);
  }

  /**
   * The score is the matched share of max(|d|, 10) in percent; the cap at 100
   * never binds, and the score lies between 0 and 100.
   */
  lemma FitScore(d: set<string>, u: set<string>)
    ensures Fit(d, u).score == Percent(|u * d|, if |d| > FitFloor then |d| else FitFloor)
    ensures 0.0 <= Fit(d, u).score <= 100.0
  {
    MatchedAtMostDomain(d, u);
  }

  /** An Excellent fit needs at least eight matched skills, whatever the size of the domain. */
  lemma ExcellentNeedsEight(d: set<string>, u: set<string>)
    requires Fit(d, u).band == Excellent
    ensures |Fit(d, u).matched| >= 8
  {
    FitScore(d, u);
    var maxScore := if |d| > FitFloor then |d| else FitFloor;
    var m := |u * d| as real;
    var share := m / maxScore as real;
    assert share * 100.0 >= 80.0;
    assert share * maxScore as real == m;
    assert share * maxScore as real >= 0.8 * maxScore as real;
    assert m >= 8.0;
  }

  /** Matching every skill of a domain with at least ten skills scores 100. */
  lemma FullMatchOfLargeDomain(d: set<string>, u: set<string>)
    requires d <= u && |d| >= FitFloor
    ensures Fit(d, u).score == 100.0 && Fit(d, u).band == Excellent
  {
    assert u * d == d;
    FitScore(d, u);
  }

  /** One domain of the taxonomy together with the name of its category. */
  datatype Placement = Placement(category: string, domain: Domain)

  function CategoryPlacements(c: Category): (ps: seq<Placement>)
    ensures |ps| == |c.domains|
  {
    seq(|c.domains|, k requires 0 <= k < |c.domains| => Placement(c.name, c.domains[k]))
  }

  /** Every domain of the taxonomy, category by category, in order. */
  function Placements(tax: Taxonomy): seq<Placement>
  {
    if tax == [] then [] else Placements(tax[..|tax| - 1]) + CategoryPlacements(tax[|tax| - 1])
  }

  /** One entry of the result of `calculate_domain_scores`. */
  datatype DomainEntry = DomainEntry(score: real, matched: set<string>, missing: set<string>, category: string)

  /** The entry for one domain of the taxonomy against the lower-cased user skills `u`. */
  function EntryFor(u: set<string>, pl: Placement): DomainEntry
    requires LowerSet(pl.domain.skills) != {}
  {
    var d := LowerSet(pl.domain.skills);
    var matched := u * d;
    DomainEntry(Percent(|matched|, |d|), matched, d - u, pl.category)
  }

  /** One step of the map: record the entry of `pl` if its domain has skills. */
  function Record(u: set<string>, m: map<string, DomainEntry>, pl: Placement): map<string, DomainEntry>
  {
    if LowerSet(pl.domain.skills) != {} then m[pl.domain.name := EntryFor(u, pl)] else m
  }

  /** The map built over a list of placements: a domain with no skills is skipped, a later entry overwrites an earlier one of the same name. */
  function ScoresOf(u: set<string>, ps: seq<Placement>): map<string, DomainEntry>
  {
    if ps == [] then
      map[]
    else
      Record(u, ScoresOf(u, ps[..|ps| - 1]), ps[|ps| - 1])
  }

  /** What `calculate_domain_scores(user_profile, categories)` returns. */
  function DomainScores(p: Profile, tax: Taxonomy): map<string, DomainEntry>
  {
    ScoresOf(SkillSet(p), Placements(tax))
  }

  lemma InnerStep(u: set<string>, done: seq<Placement>, cat: Category, j: nat)
    requires j < |cat.domains|
    ensures ScoresOf(u, done + CategoryPlacements(cat)[..j + 1]) ==
      Record(u, ScoresOf(u, done + CategoryPlacements(cat)[..j]), Placement(cat.name, cat.domains[j]))
  {
    var ps := done + CategoryPlacements(cat)[..j + 1];
    assert ps[..|ps| - 1] == done + CategoryPlacements(cat)[..j];
  }

  lemma OuterStep(tax: Taxonomy, i: nat)
    requires i < |tax|
    ensures Placements(tax[..i + 1]) == Placements(tax[..i]) + CategoryPlacements(tax[i])[..|tax[i].domains|]
  {
    assert tax[..i + 1][..i] == tax[..i];
    assert CategoryPlacements(tax[i])[..|tax[i].domains|] == CategoryPlacements(tax[i]);
  }

  /**
   * `calculate_domain_scores`: walks the categories and their domains in order
   * and records, for every domain with skills, the matched share of its skills.
   */
  method CalculateDomainScores(p: Profile, tax: Taxonomy) returns (scores: map<string, DomainEntry>)
    ensures scores == DomainScores(p, tax)
  {
    var userSkills := SkillSet(p);
    scores := map[];
    for i := 0 to |tax|
      invariant scores == ScoresOf(userSkills, Placements(tax[..i]))
    {
      var cat := tax[i];
      var done := Placements(tax[..i]);
      assert done + CategoryPlacements(cat)[..0] == done;
      for j := 0 to |cat.domains|
        invariant scores == ScoresOf(userSkills, done + CategoryPlacements(cat)[..j])
      {
        var domain := cat.domains[j];
        var domainSkills := LowerSet(domain.skills);
        if domainSkills != {} {
          var matched := userSkills * domainSkills;
          var score := Percent(|matched|, |domainSkills|);
          scores := scores[domain.name := DomainEntry(score, matched, domainSkills - userSkills, cat.name)];
        }
        assert scores == ScoresOf(userSkills, done + CategoryPlacements(cat)[..j + 1]) by {
          InnerStep(userSkills, done, cat, j);
        }
      }
      assert scores == ScoresOf(userSkills, Placements(tax[..i + 1])) by {
        OuterStep(tax, i);
      }
    }
    assert tax[..|tax|] == tax;
  }

  /** `ps[i]` is a domain named `k` that has skills. */
  predicate HasSkillsAt(ps: seq<Placement>, k: string, i: int)
  {
    0 <= i < |ps| && ps[i].domain.name == k && LowerSet(ps[i].domain.skills) != {}
  }

  /** `ps[i]` is the last placement of a domain named `k` that has skills. */
  predicate LastWithSkills(ps: seq<Placement>, k: string, i: int)
  {
    HasSkillsAt(ps, k, i) && forall j :: i < j < |ps| ==> !HasSkillsAt(ps, k, j)
  }

  /** The map has a key for each domain name that has skills somewhere in the taxonomy. */
  lemma {:induction false} ScoresOfKeys(u: set<string>, ps: seq<Placement>, k: string)
    ensures k in ScoresOf(u, ps) <==> exists i :: HasSkillsAt(ps, k, i)
  {
    if ps != [] {
      var n := |ps| - 1;
      var init := ps[..n];
      ScoresOfKeys(u, init, k);
      if HasSkillsAt(ps, k, n) {
        assert k in ScoresOf(u, ps);
      } else {
        assert ScoresOf(u, ps).Keys == ScoresOf(u, init).Keys + (if LowerSet(ps[n].domain.skills) != {} then {ps[n].domain.name} else {});
        if exists i :: HasSkillsAt(ps, k, i) {
          var i :| HasSkillsAt(ps, k, i);
          assert HasSkillsAt(init, k, i);
        }
        if exists i :: HasSkillsAt(init, k, i) {
          var i :| HasSkillsAt(init, k, i);
          assert HasSkillsAt(ps, k, i);
        }
      }
    }
  }

  /** Each entry of the map is the one computed for the last domain of that name that has skills. */
  lemma {:induction false} ScoresOfLastWins(u: set<string>, ps: seq<Placement>, k: string)
    requires k in ScoresOf(u, ps)
    ensures exists i :: LastWithSkills(ps, k, i) && ScoresOf(u, ps)[k] == EntryFor(u, ps[i])
  {
    var n := |ps| - 1;
    var init := ps[..n];
    if HasSkillsAt(ps, k, n) {
      assert LastWithSkills(ps, k, n);
    } else {
      assert k in ScoresOf(u, init) && ScoresOf(u, ps)[k] == ScoresOf(u, init)[k];
      ScoresOfLastWins(u, init, k);
      var i :| LastWithSkills(init, k, i) && ScoresOf(u, init)[k] == EntryFor(u, init[i]);
      assert ps[i] == init[i];
      forall j | i < j < |ps| ensures !HasSkillsAt(ps, k, j) {
        if j < n {
          assert !HasSkillsAt(init, k, j);
        }
      }
      assert LastWithSkills(ps, k, i);
    }
  }

  /**
   * Each entry's score is the matched share of the domain's lower-cased skills
   * in percent, between 0 and 100, and matched and missing split those skills.
   */
  lemma EntryProperties(u: set<string>, pl: Placement)
    requires LowerSet(pl.domain.skills) != {}
    ensures 0.0 <= EntryFor(u, pl).score <= 100.0
    ensures EntryFor(u, pl).matched + EntryFor(u, pl).missing == LowerSet(pl.domain.skills)
    ensures EntryFor(u, pl).matched !! EntryFor(u, pl).missing
    ensures EntryFor(u, pl).category == pl.category
  {
    var d := LowerSet(pl.domain.skills);
    MatchedAtMostDomain(d, u);
  }

  /**
   * `analyze_fit` is never more generous than `calculate_domain_scores` on the
   * same domain, and the two agree once the domain has at least ten skills.
   */
  lemma FitAtMostDomainScore(u: set<string>, pl: Placement)
    requires LowerSet(pl.domain.skills) != {}
    ensures Fit(LowerSet(pl.domain.skills), u).score <= EntryFor(u, pl).score
    ensures |LowerSet(pl.domain.skills)| >= FitFloor ==> Fit(LowerSet(pl.domain.skills), u).score == EntryFor(u, pl).score
  {
    var d := LowerSet(pl.domain.skills);
    FitScore(d, u);
    PercentOfMore(|u * d|, |d|, if |d| > FitFloor then |d| else FitFloor);
  }

  /** A share of a larger whole is no larger. */
  lemma PercentOfMore(part: nat, a: nat, b: nat)
    requires 0 < a <= b
    ensures Percent(part, b) <= Percent(part, a)
  {
    var m := part as real;
    var ar := a as real;
    var br := b as real;
    var x := m / br;
    var y := m / ar;
    assert x * br == m && y * ar == m;
    assert x >= 0.0;
    assert x * ar <= x * br;
    assert x * ar <= y * ar;
    assert x <= y;
  }
}
