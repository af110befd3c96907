# Hackathon teammate matching engine — a verified model

This project models the matching and scoring core of the hackathon
team-building app (`app4.py`). It does not model the Streamlit pages around it.
The core:

- vectorises hacker profiles over the sorted vocabulary of their lower-cased
  skills (`vectorize_profiles`);
- ranks a pool by similarity to a target profile, drops near-identical
  profiles, keeps the top *k* and then drops candidates whose availability
  cannot meet the target's (`find_best_matches`);
- scores a user's fit to one domain of the category → domain → skills
  taxonomy (`analyze_fit`) and to every domain of the taxonomy at once
  (`calculate_domain_scores`);
- turns a score into a badge class and label (`get_score_class`,
  `get_score_label`);
- proposes the three most complementary instant teammates
  (`create_instant_team_match`);
- assigns each of seven team roles to the member who scores best for it
  (`generate_team_roles`);
- rates a team's overall compatibility from 0 to 100
  (`calculate_team_compatibility`).

Modules, one per concern:

- `Text`: ASCII lower-casing, Python's substring test and Python's string order.
- `Sorting`: the stable descending sort and the slice `[:k]` the engine uses.
- `Profiles`: profiles, the taxonomy and the two experience tables.
- `SkillVectorizer`, `SimilarityRanker`, `DomainFitAnalyzer`,
  `ComplementarityScorer`, `RoleAssigner`, `CompatibilityScorer`: the operations.

Where the source computes with loops, the model is a `method` with the same
loops. Each method is proved equal to a specification function. The
properties are then proved about that function as lemmas. Where the source
only computes a value, the model is a function with lemmas about it.

## Model

| member | source | states |
|---|---|---|
| Text.Lower | app4.py:289 | `s.lower()` keeps the length and leaves no capital letter |
| Text.Contains | app4.py:507 | Python's `kw in ms` on strings: a keyword is only found in a skill at least as long |
| Text.StrLess | app4.py:300 | Python's string `<` is irreflexive and puts a proper prefix first |
| Text.ContainsIff | app4.py:507 | `kw in ms` holds exactly when the keyword occurs at some position of the skill |
| Text.SortedUnique | app4.py:300 | two strictly increasing listings of the same skills are equal, so `sorted(list(all_skills))` is determined by the set |
| Profiles.SkillUnionMembers | app4.py:296-299 | a skill is in the collected set exactly when some profile lists it (after lower-casing) |
| Profiles.ExperienceOrdinal | app4.py:475-477 | Beginner..Expert map to 1..4 and any other level to 2 |
| Profiles.ExperienceBonus | app4.py:510-511 | the role bonus lies in [0.5, 3] and is 1 for an unknown level |
| Profiles.ExperienceTablesAgree | app4.py:475-477 | for the four known levels, the instant-match table and the role-bonus table rank levels in the same order |
| Sorting.Insert | app4.py:485 | one insertion step of the stable sort: one element longer, same elements plus the inserted one |
| Sorting.SortDesc | app4.py:485 | `sort(key=..., reverse=True)` returns a permutation of its input |
| Sorting.InsertOrdered | app4.py:485 | inserting into a list ordered from the highest key down keeps it ordered |
| Sorting.SortDescOrdered | app4.py:485 | the sorted list is ordered from the highest key down |
| Sorting.InsertKeyRun | app4.py:485 | an insertion keeps the input order among elements with the same key |
| Sorting.SortDescStable | app4.py:311 | for every key, the elements with that key keep their input order (Python's sort is stable) |
| Sorting.SliceTo | app4.py:311 | `s[:k]` is a prefix of `s` of length `min(k, len(s))`, and for a negative `k` it drops the last `-k` elements |
| Sorting.TopSlice | app4.py:485-486 | the top slice is ordered, taken from the input, no left-out element beats a kept one, and equal keys keep their order |
| Sorting.TopSliceKeepsAll | app4.py:311 | a cut to `k` that is at least the number of entries drops nothing |
| Sorting.InsertTiesByPosition | app4.py:311 | inserting an entry ahead of every later entry with its key keeps equal keys in position order |
| Sorting.SortDescTiesByPosition | app4.py:311 | sorting `(index, similarity)` pairs listed by index keeps equal similarities in index order |
| Sorting.TopSliceTiesByPosition | app4.py:311 | the top `k` of pairs listed by index keep equal similarities in index order |
| SkillVectorizer.Vocabulary | app4.py:300 | `sorted(list(all_skills))` lists the skill set in strictly increasing order, each skill once |
| SkillVectorizer.SortSkills | app4.py:300 | the loop that takes the least remaining skill each time builds exactly the vocabulary |
| SkillVectorizer.MembershipRow | app4.py:289-290 | row entry `j` is 1 exactly when the profile lists vocabulary word `j` (after lower-casing), else 0 |
| SkillVectorizer.VectorizeProfiles | app4.py:285-292 | one row per profile, each the length of the vocabulary, holding 1 exactly where the profile has that skill |
| SkillVectorizer.DisjointSkillsOrthogonal | app4.py:289-290 | profiles that share no skill have orthogonal rows |
| SkillVectorizer.DotCountsSharedSkills | app4.py:289-290 | over a vocabulary without repeats, the dot product of two rows counts the skills both profiles have in the vocabulary |
| SkillVectorizer.SelfDotCountsSkills | app4.py:289-290 | a row's dot product with itself counts the profile's distinct skills |
| SimilarityRanker.BelowThreshold | app4.py:311 | the kept `(index, similarity)` pairs are exactly the pool positions whose similarity is below 0.999, listed by increasing position |
| SimilarityRanker.KeepAvailableSound | app4.py:313-322 | the availability filter keeps exactly the ranked candidates whose availability can meet the target's, each with its similarity |
| SimilarityRanker.KeepAvailableOrdered | app4.py:315-322 | filtering keeps the ranking's order, from the most similar down |
| SimilarityRanker.KeptEntries | app4.py:315-322 | match `j` of the filter is the pool member at the position of the `j`-th kept ranked entry, with its similarity; every kept entry comes from the ranking |
| SimilarityRanker.KeptEntriesTiesByPosition | app4.py:315-322 | the filter keeps entries with equal similarity in pool order |
| SimilarityRanker.FindBestMatches | app4.py:294-328 | the method (vocabulary loop, vectorisation, ranking, filter loop) returns the specified best matches |
| SimilarityRanker.BestMatchesEmptyVocabulary | app4.py:302-303 | when nobody lists a skill, the result is empty |
| SimilarityRanker.BestMatchesShape | app4.py:309-323 | at most `top_k` results, ordered by similarity, each a pool member below the threshold whose availability can meet the target's |
| SimilarityRanker.BestMatchesAreTopRanked | app4.py:311-322 | a candidate below the threshold that can meet the target but is missing from the result is no more similar than any returned one |
| SimilarityRanker.BestMatchesComplete | app4.py:309-323 | when at most `top_k` pool members are below the threshold, every one of them that can meet the target is returned with its similarity |
| SimilarityRanker.BestMatchesTiesKeepPoolOrder | app4.py:311-322 | each match is a pool member with its similarity, and matches with equal similarity come in pool order (the sort is stable) |
| SimilarityRanker.SameSkillsSameRow | app4.py:289-290 | profiles with the same lower-cased skills get the same row |
| SimilarityRanker.IdenticalSkillsExcluded | app4.py:310-311 | if the similarity gives a non-zero row similarity at least 0.999 with itself, no profile with exactly the target's skills is ever returned |
| DomainFitAnalyzer.BandOf | app4.py:344-351 | the band is Excellent exactly from 80 up, Good exactly from 60 to below 80, Average exactly from 40 to below 60, and Poor exactly below 40 |
| DomainFitAnalyzer.BandMonotone | app4.py:380-400 | a higher score never falls in a lower band |
| DomainFitAnalyzer.ScoreClass | app4.py:380-389 | the class is one of the four badge classes |
| DomainFitAnalyzer.ScoreLabel | app4.py:391-400 | the label is one of the four badge labels |
| DomainFitAnalyzer.ClassAndLabelFollowBand | app4.py:380-400 | class and label both follow the same 80/60/40 bands: each band gives exactly its class and its label |
| DomainFitAnalyzer.FindCategory | app4.py:332 | a category is found exactly when the taxonomy has one with that name |
| DomainFitAnalyzer.FindIn | app4.py:332 | a domain is found exactly when the category has one with that name |
| DomainFitAnalyzer.Percent | app4.py:342 | a share in percent is never negative and never above 100 when the part does not exceed the whole |
| DomainFitAnalyzer.AnalyzeFitDefinedIff | app4.py:330-333 | there is a report exactly when the taxonomy holds the category and the category holds the domain |
| DomainFitAnalyzer.Fit | app4.py:335-342 | matched and missing split the domain's skills; matched skills are the user's, missing ones are not; the score lies in [0, 100] |
| DomainFitAnalyzer.AnalyzeFit | app4.py:330-358 | a report, when there is one, is the fit of the selected skills to a domain of that name in a category of that name |
| DomainFitAnalyzer.FitScore | app4.py:341-342 | the score is the matched share of `max(len(domain), 10)` in percent, and lies in [0, 100] |
| DomainFitAnalyzer.ExcellentNeedsEight | app4.py:341-345 | an Excellent fit needs at least eight matched skills, whatever the domain's size |
| DomainFitAnalyzer.FullMatchOfLargeDomain | app4.py:341-345 | matching every skill of a domain with ten or more skills scores 100 and is Excellent |
| DomainFitAnalyzer.CalculateDomainScores | app4.py:360-378 | the nested loops build exactly the specified map of domain entries |
| DomainFitAnalyzer.ScoresOfKeys | app4.py:365-371 | the map has a key for exactly the domain names that have skills somewhere in the taxonomy |
| DomainFitAnalyzer.ScoresOfLastWins | app4.py:365-376 | each entry is the one for the last domain of that name that has skills (a later entry overwrites an earlier one) |
| DomainFitAnalyzer.EntryProperties | app4.py:367-376 | an entry's score lies in [0, 100], matched and missing split the domain's skills, and the category is recorded |
| DomainFitAnalyzer.FitAtMostDomainScore | app4.py:341-342 | the fit score never exceeds the domain-score entry, and the two agree for domains of ten or more skills |
| DomainFitAnalyzer.PercentOfMore | app4.py:342 | the same part of a larger whole is no larger a share |
| ComplementarityScorer.InstantScore | app4.py:463-480 | only shared skills can pull the score below 0: it is at least -0.5 per shared skill |
| ComplementarityScorer.InstantScoreByCounts | app4.py:466-480 | the score is both skill counts, less 2.5 per shared skill, plus twice the availability term and 0.3 per experience step |
| ComplementarityScorer.InstantScoreSymmetric | app4.py:466-480 | the score does not depend on which profile is the target |
| ComplementarityScorer.DisjointSkillsScorePositive | app4.py:466-482 | a candidate sharing no skill with the target, where either has a skill, always scores above 0 |
| ComplementarityScorer.TwinWithoutCommonTimeScoresNothing | app4.py:466-483 | a candidate with the target's skills and experience and no common availability although both list some scores at most 0 and is dropped |
| ComplementarityScorer.InstantScoreExample | app4.py:466-480 | {react, css} against {python, sql}, one shared tag, both Intermediate, scores 6 |
| ComplementarityScorer.CandidatesExactly | app4.py:459-483 | the candidates are exactly the pool members named differently from the target whose score is above 0, each with its score |
| ComplementarityScorer.CreateInstantTeamMatch | app4.py:449-486 | the loop, the sort and the slice return exactly the specified instant matches |
| ComplementarityScorer.InstantMatchesNoneIff | app4.py:453-454 | there is no result exactly when the pool has fewer than two profiles |
| ComplementarityScorer.InstantMatchesSound | app4.py:482-486 | at most three matches, from the highest score down, each a differently named pool member with its score above 0 |
| ComplementarityScorer.InstantMatchesAreBest | app4.py:485-486 | a qualifying candidate left out scores no higher than any returned match, and nobody qualifying is left out when at most three qualify |
| ComplementarityScorer.InstantMatchesStable | app4.py:485 | matches with equal scores keep the pool's order |
| RoleAssigner.CatalogueComplete | app4.py:490-498 | the role table holds all seven roles under seven distinct names |
| RoleAssigner.Hits | app4.py:507 | a member hits at most as many keywords as the role lists |
| RoleAssigner.HitsExtremes | app4.py:507 | all keywords count exactly when every keyword occurs in some skill, none exactly when none occurs |
| RoleAssigner.RoleScore | app4.py:506-511 | a member's role score (keyword hits plus experience bonus) lies between 0.5 and the number of keywords plus 3 |
| RoleAssigner.HitsGrow | app4.py:507 | listing more skills never lowers the keyword hits |
| RoleAssigner.RoleScoreMonotone | app4.py:506-511 | listing more skills at the same experience never lowers a member's role score |
| RoleAssigner.JavaScriptCountsForBackend | app4.py:494-507 | the substring test counts "java" inside "JavaScript", so a JavaScript-only member hits the backend role |
| RoleAssigner.FirstBestIsFirstMax | app4.py:502-515 | with positive scores, the strict `>` scan keeps the first entry with the highest score |
| RoleAssigner.BestIsFirstMaximum | app4.py:502-515 | for a non-empty team, each role goes to the first member with the highest score, and no earlier member scores as much |
| RoleAssigner.BestOfEmpty | app4.py:502-517 | a role stays unassigned exactly when the team is empty |
| RoleAssigner.GenerateTeamRoles | app4.py:488-521 | the result has exactly the seven role names as keys, and each entry is the specified slot for the team |
| RoleAssigner.RolesFilledIffTeam | app4.py:517-519 | every role is filled exactly when the team is not empty, and keeps its keywords |
| RoleAssigner.SingleMemberTakesEveryRole | app4.py:502-519 | a one-member team gives that member every role, each with their own score |
| CompatibilityScorer.SkillUnionAtMostTotal | app4.py:529-533 | there are never more distinct lower-cased skills than listed ones |
| CompatibilityScorer.SkillDiversityBelowOne | app4.py:529-534 | skill diversity lies in [0, 1) |
| CompatibilityScorer.LevelsSize | app4.py:537-538 | a non-empty team has between 1 and team-size distinct experience levels |
| CompatibilityScorer.ExperienceVarietyBounds | app4.py:537-538 | experience variety lies in (0, 1] for a non-empty team |
| CompatibilityScorer.AvailSetsExactly | app4.py:541 | the collected sets are exactly the availability sets of the members who list some |
| CompatibilityScorer.IntersectionMembers | app4.py:543 | a tag is in the intersection exactly when every set holds it |
| CompatibilityScorer.CommonAvailabilityShared | app4.py:541-544 | the tags counted are exactly those that every member who lists availability shares |
| CompatibilityScorer.CalculateTeamCompatibility | app4.py:523-555 | the method's loops and terms compute exactly the specified score |
| CompatibilityScorer.SmallTeamScoresZero | app4.py:525-526 | a team of fewer than two scores 0 |
| CompatibilityScorer.CompatibilityBounds | app4.py:554-555 | the score always lies in [0, 100] |
| CompatibilityScorer.DomainRichTeamSaturates | app4.py:549-555 | a team averaging five or more distinct domains per member reaches 100 through the domain term alone and is capped there |

## Left out

- User interface, JSON storage, session state and the other Streamlit pages are not part of this model. `create_instant_team_match` reads its pool from `get_all_users()`; here the pool is a parameter.
- SimilarityRanker.FindBestMatches: scikit-learn's `cosine_similarity` is a parameter `sim`. Its floating-point value is not modelled. For a row of zeros it gives 0, so the 0.999 cut does not remove a profile with no skills. `IdenticalSkillsExcluded` therefore assumes self-similarity only for rows with a 1.
- SimilarityRanker.FindBestMatches: the `try`/`except` path that reports an error and returns `[]` is not modelled, since no modelled step raises.
- Text.Lower: `str.lower` is modelled for ASCII capitals only. Other Unicode case mappings are not.
- Floats are modelled as exact reals, so rounding in divisions and sums is not captured. The `int` 0 that `calculate_team_compatibility` returns for small teams is the real 0.
- DomainFitAnalyzer.AnalyzeFit: the recommendation text is reduced to its band. The three missing skills it quotes depend on set iteration order, which Python leaves unspecified.
- DomainFitAnalyzer.CalculateDomainScores and RoleAssigner.GenerateTeamRoles return maps, so the insertion order of the source's dictionaries is not modelled.
- The taxonomy is a sequence of categories, and a dictionary lookup finds the first entry with that name (dictionary keys are distinct).
- The `hackathon_context` and `hackathon_theme` parameters are unused in the source and are left out. So is a profile's bio.
- RoleAssigner.GenerateTeamRoles: `if best_member:` tests a profile dictionary for truth. A profile is never an empty dictionary, so this is modelled as "someone was picked".
- `display_profile_card_with_scores` is not part of this model. It only renders the best domain score with the badge functions.
