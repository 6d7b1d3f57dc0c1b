/**
 * The keyword match score stored with every ingested job: how many of a fixed
 * list of thirteen skills, and of four bonus terms, occur in the lower-cased
 * "title description" text, combined and capped at 100.
 */
module Scoring {
  import opened Wrappers
  import opened Text

  /** The thirteen skills of the built-in profile, in the order the scorer lists them. */
  const Skills: seq<string> := [
    "business analyst", "requirements", "crm", "sql", "senior",
    "stakeholder", "process", "analysis", "healthcare", "remote",
    "product manager", "data", "business intelligence"
  ]

  /** Terms worth ten extra points each. */
  const BonusTerms: seq<string> := ["senior", "business analyst", "product manager", "remote"]

  const BonusPerTerm: nat := 10
  const MaxScore: nat := 100

  predicate Distinct(terms: seq<string>) {
    forall i, j :: 0 <= i < j < |terms| ==> terms[i] != terms[j]
  }

  /** A missing or empty description is scored as the empty string. */
  function DescriptionText(description: Option<string>): string {
    description.GetOr("")
  }

  /** The text the scorer searches: `f"{title} {description}".lower()`. */
  function JobText(title: string, description: Option<string>): string {
    Lower(title + " " + DescriptionText(description))
  }

  /** The terms of `terms` that occur in `text`. */
  function MatchedTerms(text: string, terms: seq<string>): set<string> {
    set t | t in terms && Contains(text, t)
  }

  /** `sum(1 for t in terms if t in text)`. */
  function CountHits(text: string, terms: seq<string>): (n: nat)
    ensures n <= |terms|
  {
    if |terms| == 0 then 0
    else (if Contains(text, terms[0]) then 1 else 0) + CountHits(text, terms[1..])
  }

  /** `min(x, 100)` */
  function Cap(x: int): int {
    if x < MaxScore then x else MaxScore
  }

  /**
   * `calculate_match_score(job_title, job_description, user_skills)`. The user's
   * skills are accepted and ignored, as in the scorer. The ratio
   * `int((hits / 13) * 100)` is taken in integer arithmetic.
   */
  function MatchScore(title: string, description: Option<string>, userSkills: seq<string>): (r: int)
    ensures 0 <= r <= MaxScore
  {
    TextScore(JobText(title, description))
  }

  /** The score of an already lower-cased job text. */
  function TextScore(text: string): (r: int)
    ensures 0 <= r <= MaxScore
  {
    var hits := CountHits(text, Skills);
    var baseScore := Cap(hits * 100 / |Skills|);
    var bonus := BonusPerTerm * CountHits(text, BonusTerms);
    Cap(baseScore + bonus)
  }

  /** More skills and more bonus terms found never give a lower score. */
  lemma TextScoreMonotone(a: string, b: string)
    requires CountHits(a, Skills) <= CountHits(b, Skills)
    requires CountHits(a, BonusTerms) <= CountHits(b, BonusTerms)
    ensures TextScore(a) <= TextScore(b)
  {
    var ha := CountHits(a, Skills);
    var hb := CountHits(b, Skills);
    assert ha * 100 <= hb * 100;
    assert ha * 100 / 13 <= hb * 100 / 13;
  }

  /**
   * The score is `min(h * 100 / 13 + 10 * b, 100)`, where `h` is the number of
   * skills and `b` the number of bonus terms found in the job text.
   */
  lemma ScoreFormula(title: string, description: Option<string>, userSkills: seq<string>)
    ensures MatchScore(title, description, userSkills)
            == Cap(|MatchedTerms(JobText(title, description), Skills)| * 100 / |Skills|
                   + BonusPerTerm * |MatchedTerms(JobText(title, description), BonusTerms)|)
  {
    var text := JobText(title, description);
    TermListsDistinct();
    HitsCountMatchedTerms(text, Skills);
    HitsCountMatchedTerms(text, BonusTerms);
  }

  lemma TermListsDistinct()
    ensures Distinct(Skills) && Distinct(BonusTerms)
  {
  }

  /** Counting hits along a list of distinct terms counts the set of matched terms. */
  lemma {:induction false} HitsCountMatchedTerms(text: string, terms: seq<string>)
    requires Distinct(terms)
    ensures CountHits(text, terms) == |MatchedTerms(text, terms)|
  {
    if |terms| > 0 {
      DistinctTail(terms);
      HitsCountMatchedTerms(text, terms[1..]);
      MatchedTermsStep(text, terms);
    }
  }

  /** The rest of a list of distinct terms is distinct and lacks the first term. */
  lemma DistinctTail(terms: seq<string>)
    requires Distinct(terms) && |terms| > 0
    ensures Distinct(terms[1..])
    ensures terms[0] !in terms[1..]
  {
    var rest := terms[1..];
    assert forall k :: 0 <= k < |rest| ==> rest[k] == terms[k + 1];
  }

  /** The matched terms of a list: its first term when found, and the matched terms of the rest. */
  lemma MatchedTermsStep(text: string, terms: seq<string>)
    requires |terms| > 0 && terms[0] !in terms[1..]
    ensures |MatchedTerms(text, terms)|
            == (if Contains(text, terms[0]) then 1 else 0) + |MatchedTerms(text, terms[1..])|
  {
    var m := MatchedTerms(text, terms);
    var mr := MatchedTerms(text, terms[1..]);
    assert terms == [terms[0]] + terms[1..];
    assert terms[0] !in mr;
    if Contains(text, terms[0]) {
      assert m == mr + {terms[0]};
    } else {
      assert m == mr;
    }
  }

  /** Every term found in `text` is still found once more text is appended. */
  lemma {:induction false} HitsGrowWithText(text: string, more: string, terms: seq<string>)
    ensures CountHits(text, terms) <= CountHits(text + more, terms)
  {
    if |terms| > 0 {
      if Contains(text, terms[0]) {
        ContainsExtend(text, more, terms[0]);
      }
      HitsGrowWithText(text, more, terms[1..]);
    }
  }

  /** Appending text to a job's description never lowers its score. */
  lemma ScoreMonotoneInDescription(title: string, description: Option<string>, more: string, userSkills: seq<string>)
    ensures MatchScore(title, Some(DescriptionText(description) + more), userSkills)
            >= MatchScore(title, description, userSkills)
  {
    var before := title + " " + DescriptionText(description);
    var after := title + " " + (DescriptionText(description) + more);
    assert after == before + more;
    LowerAppend(before, more);
    HitsGrowWithText(Lower(before), Lower(more), Skills);
    HitsGrowWithText(Lower(before), Lower(more), BonusTerms);
    TextScoreMonotone(Lower(before), Lower(after));
  }

  /**
   * The score depends neither on the user's skills nor on letter case, and a
   * missing description scores like an empty one.
   */
  lemma ScoreNormalisation(title: string, description: string, skillsA: seq<string>, skillsB: seq<string>)
    ensures MatchScore(title, None, skillsA) == MatchScore(title, Some(""), skillsB)
    ensures MatchScore(title, Some(description), skillsA) == MatchScore(title, Some(description), skillsB)
    ensures MatchScore(Lower(title), Some(Lower(description)), skillsA) == MatchScore(title, Some(description), skillsA)
  {
    LowerAppend(Lower(title), " ");
    LowerAppend(Lower(title) + " ", Lower(description));
    LowerAppend(title, " ");
    LowerAppend(title + " ", description);
    LowerIdempotent(title + " " + description);
    assert Lower(" ") == " ";
  }

  /** "Senior Business Analyst" with an empty description: two skills (15) and two bonus terms (20). */
  lemma ScoreExample()
    ensures MatchScore("Senior Business Analyst", Some(""), []) == 35
  {
    ExampleText();
    ScoreFromHits("Senior Business Analyst", Some(""), "senior business analyst ");
  }

  lemma ScoreFromHits(title: string, description: Option<string>, text: string)
    requires JobText(title, description) == text == "senior business analyst "
    ensures MatchScore(title, description, []) == 35
  {
    ExampleHits(text);
  }

  lemma ExampleText()
    ensures JobText("Senior Business Analyst", Some("")) == "senior business analyst "
  {
    assert "Senior Business Analyst" + " " + DescriptionText(Some("")) == "Senior Business Analyst ";
  }

  /** One step of `CountHits` along a suffix of `terms`. */
  lemma CountHitsStep(text: string, terms: seq<string>, k: nat)
    requires k < |terms|
    ensures CountHits(text, terms[k..])
            == (if Contains(text, terms[k]) then 1 else 0) + CountHits(text, terms[k + 1..])
  {
    assert terms[k..][1..] == terms[k + 1..];
  }

  /** Of the thirteen skills, exactly "business analyst" (index 0) and "senior" (index 4) occur. */
  lemma ExampleSkillFact(text: string, k: nat)
    requires text == "senior business analyst "
    requires k < |Skills|
    ensures Contains(text, Skills[k]) <==> k == 0 || k == 4
  {
    if k <= 3 {
      ExampleSkillsUpToSql(text, k);
    } else if k <= 6 {
      ExampleSkillsUpToProcess(text, k);
    } else if k <= 9 {
      ExampleSkillsUpToRemote(text, k);
    } else {
      ExampleSkillsToEnd(text, k);
    }
  }

  lemma ExampleSkillsUpToSql(text: string, k: nat)
    requires text == "senior business analyst "
    requires 0 <= k <= 3
    ensures Contains(text, Skills[k]) <==> k == 0 || k == 4
  {
    if k == 0 {
      assert ContainsAt(text, "business analyst", 7);
    } else if k == 1 {
      AbsentCharNotContained(text, "requirements", 'q');
    } else if k == 2 {
      AbsentCharNotContained(text, "crm", 'c');
    } else {
      AbsentCharNotContained(text, "sql", 'q');
    }
  }

  lemma ExampleSkillsUpToProcess(text: string, k: nat)
    requires text == "senior business analyst "
    requires 4 <= k <= 6
    ensures Contains(text, Skills[k]) <==> k == 0 || k == 4
  {
    if k == 4 {
      assert ContainsAt(text, "senior", 0);
    } else if k == 5 {
      AbsentCharNotContained(text, "stakeholder", 'k');
    } else {
      AbsentCharNotContained(text, "process", 'p');
    }
  }

  lemma ExampleSkillsUpToRemote(text: string, k: nat)
    requires text == "senior business analyst "
    requires 7 <= k <= 9
    ensures Contains(text, Skills[k]) <==> k == 0 || k == 4
  {
    if k == 7 {
      AnalysisNotInExample();
    } else if k == 8 {
      AbsentCharNotContained(text, "healthcare", 'h');
    } else {
      AbsentCharNotContained(text, "remote", 'm');
    }
  }

  lemma ExampleSkillsToEnd(text: string, k: nat)
    requires text == "senior business analyst "
    requires 10 <= k <= 12
    ensures Contains(text, Skills[k]) <==> k == 0 || k == 4
  {
    if k == 10 {
      AbsentCharNotContained(text, "product manager", 'p');
    } else if k == 11 {
      AbsentCharNotContained(text, "data", 'd');
    } else {
      AbsentCharNotContained(text, "business intelligence", 'g');
    }
  }

  lemma ExampleHits(text: string)
    requires text == "senior business analyst "
    ensures CountHits(text, Skills) == 2
    ensures CountHits(text, BonusTerms) == 2
  {
    ExampleSkillHits(text);
    ExampleBonusHits(text);
  }

  lemma ExampleSkillHits(text: string)
    requires text == "senior business analyst "
    ensures CountHits(text, Skills) == 2
  {
    var k := |Skills|;
    while k > 0
      invariant 0 <= k <= |Skills|
      invariant CountHits(text, Skills[k..]) == if k == 0 then 2 else if k <= 4 then 1 else 0
    {
      k := k - 1;
      ExampleSkillFact(text, k);
      CountHitsStep(text, Skills, k);
    }
    assert Skills[0..] == Skills;
  }

  lemma ExampleBonusHits(text: string)
    requires text == "senior business analyst "
    ensures CountHits(text, BonusTerms) == 2
  {
    ExampleSkillFact(text, 0);
    ExampleSkillFact(text, 4);
    ExampleSkillFact(text, 9);
    ExampleSkillFact(text, 10);
    assert BonusTerms == [Skills[4], Skills[0], Skills[10], Skills[9]];
    var k := |BonusTerms|;
    while k > 0
      invariant 0 <= k <= |BonusTerms|
      invariant CountHits(text, BonusTerms[k..]) == if k == 0 then 2 else if k == 1 then 1 else 0
    {
      k := k - 1;
      CountHitsStep(text, BonusTerms, k);
    }
    assert BonusTerms[0..] == BonusTerms;
  }

  /** "analysis" is not "analyst": it would have to fit inside one space-separated word. */
  lemma AnalysisNotInExample()
    ensures !Contains("senior business analyst ", "analysis")
  {
    TooLongNotContained("senior", "analysis");
    TooLongNotContained("analyst", "analysis");
    TooLongNotContained("", "analysis");
    AbsentCharNotContained("business", "analysis", 'a');
    SplitNotContained("analyst", ' ', "", "analysis");
    SplitNotContained("business", ' ', "analyst" + [' '] + "", "analysis");
    SplitNotContained("senior", ' ', "business" + [' '] + ("analyst" + [' '] + ""), "analysis");
    assert "senior business analyst " == "senior" + [' '] + ("business" + [' '] + ("analyst" + [' '] + ""));
  }
}
