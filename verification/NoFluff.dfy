/**
 * The NoFluffJobs scraper after its HTML has been read: the jobs extracted
 * from the first `max_results` cards, or the query-filtered sample jobs when
 * nothing was extracted or the request failed.
 */
module NoFluff {
  import opened Wrappers
  import opened Text
  import opened Records

  const Platform: string := "nofluffjobs"
  /** The query for which the samples are not filtered. */
  const UnfilteredQuery: string := "business analyst"
  const MaxSamples: nat := 2

  /** The FinTech sample: a senior business-analyst posting. */
  const FinTechTitle: string := "Senior Business Analyst" + " - FinTech"
  const FinTechCompany: string := "Polish FinTech Solutions"
  const FinTechLocation: string := "Warsaw, Poland (Remote)"
  const FinTechSalary: string := "18,000-24,000 PLN"
  const FinTechDescription: string :=
    "Senior Business Analyst role in growing FinTech company. Focus on digital banking solutions and customer experience."
  const FinTechUrl: string := "https://nofluffjobs.com/job/senior-business-analyst-fintech"
  const FinTechRequirements: string := "Business Analysis, Financial Services, Requirements Management, SQL"

  function FinTechSample(today: string): Job {
    Job(
      title := FinTechTitle,
      company := FinTechCompany,
      location := FinTechLocation,
      salaryRange := FinTechSalary,
      description := FinTechDescription,
      sourcePlatform := Platform,
      jobUrl := FinTechUrl,
      postedDate := today,
      requirements := FinTechRequirements
    )
  }

  /** The e-commerce sample: a product-manager posting whose title and description never mention business analysis. */
  const ECommerceTitle: string := "Product Manager - " + "E-commerce Platform"
  const ECommerceCompany: string := "Allegro Tech"
  const ECommerceLocation: string := "Krak√≥w, Poland"
  const ECommerceSalary: string := "22,000-28,000 PLN"
  const ECommerceDescription: string :=
    "Product Manager " + "for e-commerce " + "platform serving " + "millions of users. "
    + "Lead product " + "development and " + "strategy."
  const ECommerceUrl: string := "https://nofluffjobs.com/job/product-manager-ecommerce"
  const ECommerceRequirements: string := "Product Management, E-commerce, Stakeholder Management, Analytics"

  function ECommerceSample(today: string): Job {
    Job(
      title := ECommerceTitle,
      company := ECommerceCompany,
      location := ECommerceLocation,
      salaryRange := ECommerceSalary,
      description := ECommerceDescription,
      sourcePlatform := Platform,
      jobUrl := ECommerceUrl,
      postedDate := today,
      requirements := ECommerceRequirements
    )
  }

  function Samples(today: string): seq<Job> {
    [FinTechSample(today), ECommerceSample(today)]
  }

  /** The samples are filtered only for a query other than "" and "business analyst" (in any case). */
  predicate FiltersSamples(query: string) {
    |query| > 0 && Lower(query) != UnfilteredQuery
  }

  /** `query.lower()` occurs in the lower-cased title or description. */
  predicate MentionsQuery(job: Job, query: string) {
    ContainsIgnoringCase(job.title, query) || ContainsIgnoringCase(job.description, query)
  }

  /** `xs` is `ys` with some elements left out, the rest in their original order. */
  predicate IsSubsequence<T(==)>(xs: seq<T>, ys: seq<T>)
    decreases |ys|
  {
    if |xs| == 0 then true
    else if |ys| == 0 then false
    else if xs[0] == ys[0] then IsSubsequence(xs[1..], ys[1..])
    else IsSubsequence(xs, ys[1..])
  }

  /** The jobs of `jobs` that mention the query, in order. */
  function KeepMentioning(jobs: seq<Job>, query: string): (r: seq<Job>)
    ensures IsSubsequence(r, jobs)
    ensures forall j :: j in r <==> j in jobs && MentionsQuery(j, query)
  {
    if |jobs| == 0 then []
    else if MentionsQuery(jobs[0], query) then [jobs[0]] + KeepMentioning(jobs[1..], query)
    else KeepMentioning(jobs[1..], query)
  }

  /** `NoFluffJobsScraper._create_sample_jobs(query, location)`; the location is unused. */
  function SampleJobs(query: string, location: string, today: string): (r: seq<Job>)
    ensures |r| <= MaxSamples
    ensures IsSubsequence(r, Samples(today))
    ensures FiltersSamples(query) ==>
              forall j :: j in Samples(today) ==> (j in r <==> MentionsQuery(j, query))
    ensures !FiltersSamples(query) ==> r == Samples(today)
  {
    var kept := if FiltersSamples(query) then KeepMentioning(Samples(today), query) else Samples(today);
    SubsequenceLength(kept, Samples(today));
    Take(kept, MaxSamples)
  }

  lemma {:induction false} SubsequenceLength<T>(xs: seq<T>, ys: seq<T>)
    requires IsSubsequence(xs, ys)
    ensures |xs| <= |ys|
    decreases |ys|
  {
    if |xs| > 0 {
      if xs[0] == ys[0] {
        SubsequenceLength(xs[1..], ys[1..]);
      } else {
        SubsequenceLength(xs, ys[1..]);
      }
    }
  }

  /** The query "Senior Business Analyst" keeps only the FinTech sample. */
  lemma SampleExample(today: string)
    ensures SampleJobs("Senior Business Analyst", "Poland", today) == [FinTechSample(today)]
  {
    var q := "Senior Business Analyst";
    var fin := FinTechSample(today);
    var shop := ECommerceSample(today);
    ExampleQueryFilters(q);
    FinTechMentionsExample(q);
    ECommerceSilentOnExample(q);
    assert Samples(today)[1..] == [shop];
    assert KeepMentioning([shop], q) == [];
    assert KeepMentioning(Samples(today), q) == [fin];
  }

  lemma ExampleQueryFilters(q: string)
    requires q == "Senior Business Analyst"
    ensures FiltersSamples(q)
    ensures 'b' in Lower(q)
  {
    assert Lower(q)[7] == 'b';
    assert |Lower(q)| != |UnfilteredQuery|;
  }

  /** A title that opens with the query mentions it. */
  lemma FinTechMentionsExample(q: string)
    requires q == "Senior Business Analyst"
    ensures ContainsIgnoringCase(FinTechTitle, q)
  {
    var rest := " - FinTech";
    LowerAppend(q, rest);
    assert Lower(FinTechTitle)[..|q|] == Lower(q);
    assert ContainsAt(Lower(FinTechTitle), Lower(q), 0);
  }

  lemma ECommerceSilentOnExample(q: string)
    requires 'b' in Lower(q)
    ensures !ContainsIgnoringCase(ECommerceTitle, q)
    ensures !ContainsIgnoringCase(ECommerceDescription, q)
  {
    TitleLacksB();
    LacksB(ECommerceTitle, q);
    DescriptionLacksB();
    LacksB(ECommerceDescription, q);
  }

  /** The e-commerce sample's title and description hold no letter b in either case. */
  lemma TitleLacksB()
    ensures 'b' !in ECommerceTitle && 'B' !in ECommerceTitle
  {
    TitlePiece1LacksB();
    TitlePiece2LacksB();
  }

  lemma DescriptionLacksB()
    ensures 'b' !in ECommerceDescription && 'B' !in ECommerceDescription
  {
    DescriptionPiece1LacksB();
    DescriptionPiece2LacksB();
    DescriptionPiece3LacksB();
    DescriptionPiece4LacksB();
    DescriptionPiece5LacksB();
    DescriptionPiece6LacksB();
    DescriptionPiece7LacksB();
  }

  lemma TitlePiece1LacksB()
    ensures 'b' !in "Product Manager - " && 'B' !in "Product Manager - "
  {
  }

  lemma TitlePiece2LacksB()
    ensures 'b' !in "E-commerce Platform" && 'B' !in "E-commerce Platform"
  {
  }

  lemma DescriptionPiece1LacksB()
    ensures 'b' !in "Product Manager " && 'B' !in "Product Manager "
  {
  }

  lemma DescriptionPiece2LacksB()
    ensures 'b' !in "for e-commerce " && 'B' !in "for e-commerce "
  {
  }

  lemma DescriptionPiece3LacksB()
    ensures 'b' !in "platform serving " && 'B' !in "platform serving "
  {
  }

  lemma DescriptionPiece4LacksB()
    ensures 'b' !in "millions of users. " && 'B' !in "millions of users. "
  {
  }

  lemma DescriptionPiece5LacksB()
    ensures 'b' !in "Lead product " && 'B' !in "Lead product "
  {
  }

  lemma DescriptionPiece6LacksB()
    ensures 'b' !in "development and " && 'B' !in "development and "
  {
  }

  lemma DescriptionPiece7LacksB()
    ensures 'b' !in "strategy." && 'B' !in "strategy."
  {
  }

  /** Neither 'b' nor 'B' occurs in `s`, so no query whose lower-cased form has a 'b' can. */
  lemma LacksB(s: string, q: string)
    requires 'b' in Lower(q)
    requires 'b' !in s && 'B' !in s
    ensures !ContainsIgnoringCase(s, q)
  {
    LowerLacks(s, 'b');
    AbsentCharNotContained(Lower(s), Lower(q), 'b');
  }

  /** The parsed page: the result of extracting each job card, `None` where extraction failed. */
  datatype PageOutcome = Parsed(cards: seq<Option<Job>>) | RequestFailed

  /** The jobs of the cards whose extraction succeeded, in order. */
  function Extracted(cards: seq<Option<Job>>): (r: seq<Job>)
    ensures |r| <= |cards|
    ensures forall j :: j in r <==> Some(j) in cards
    ensures |r| == 0 <==> forall c :: c in cards ==> c.None?
  {
    if |cards| == 0 then []
    else
      var rest := Extracted(cards[1..]);
      assert forall c :: c in cards <==> c == cards[0] || c in cards[1..];
      match cards[0]
      case Some(j) => [j] + rest
      case None => rest
  }

  /** Each successful card adds its job once, in card order: extraction commutes with concatenation. */
  lemma {:induction false} ExtractedAppend(a: seq<Option<Job>>, b: seq<Option<Job>>)
    ensures Extracted(a + b) == Extracted(a) + Extracted(b)
  {
    if |a| == 0 {
      assert a + b == b;
    } else {
      var ab := a + b;
      assert ab[0] == a[0];
      assert ab[1..] == a[1..] + b;
      ExtractedAppend(a[1..], b);
    }
  }

  /** The jobs extracted from the first `max_results` cards of a parsed page; none when the request failed. */
  function CardJobs(page: PageOutcome, maxResults: nat): (r: seq<Job>)
    ensures |r| <= maxResults
    ensures page.Parsed? ==> forall j :: j in r <==> Some(j) in Take(page.cards, maxResults)
    ensures page.Parsed? ==> (|r| == 0 <==> forall c :: c in Take(page.cards, maxResults) ==> c.None?)
    ensures page.RequestFailed? ==> r == []
    ensures page.Parsed? ==> r == Extracted(Take(page.cards, maxResults))
  {
    if page.Parsed? then Extracted(Take(page.cards, maxResults)) else []
  }

  /**
   * `NoFluffJobsScraper.search_jobs(query, location, max_results)` after the page
   * has been parsed: the samples replace the card jobs when the request failed,
   * or when no card yielded a job and the query is not empty.
   */
  function Search(query: string, location: string, maxResults: nat, page: PageOutcome, today: string): (r: seq<Job>)
    ensures page.RequestFailed? ==> r == SampleJobs(query, location, today)
    ensures page.Parsed? && |CardJobs(page, maxResults)| > 0 ==> r == CardJobs(page, maxResults)
    ensures page.Parsed? && |CardJobs(page, maxResults)| == 0 ==>
              r == if |query| > 0 then SampleJobs(query, location, today) else []
  {
    var jobs := CardJobs(page, maxResults);
    if page.RequestFailed? || (|jobs| == 0 && |query| > 0) then SampleJobs(query, location, today)
    else jobs
  }

  /** The scraper returns at most `max_results` jobs, or at most the two samples. */
  lemma SearchBound(query: string, location: string, maxResults: nat, page: PageOutcome, today: string)
    ensures |Search(query, location, maxResults, page, today)| <= if maxResults < MaxSamples then MaxSamples else maxResults
  {
  }
}
