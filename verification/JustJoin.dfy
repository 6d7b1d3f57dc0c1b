/**
 * The JustJoin.IT scraper: the API offer record is mapped to a job record, or
 * rejected when its title does not contain the query; a failed request falls
 * back to one fixed sample job.
 */
module JustJoin {
  import opened Wrappers
  import opened Text
  import opened Records
  import Thousands

  const BaseUrl: string := "https://justjoin.it"
  const Platform: string := "justjoinit"
  const DefaultTitle: string := "Business Analyst"
  const DefaultCompany: string := "Tech Company"
  const DefaultCity: string := "Poland"
  const DefaultCurrency: string := "PLN"
  const Negotiable: string := "Salary negotiable"
  const RemoteSuffix: string := ", Remote"
  const DateLength: nat := 10
  const MaxPerPage: nat := 100

  /** The `salary` object of an employment type; each key may be missing. */
  datatype Salary = Salary(currency: Option<string>, from: Option<nat>, to: Option<nat>)

  datatype EmploymentType = EmploymentType(salary: Option<Salary>)

  /**
   * One element of the API's `data` list. Every key may be missing; `remote`
   * stands for the truthiness of whatever value the key holds.
   */
  datatype Offer = Offer(
    id: Option<string>,
    title: Option<string>,
    companyName: Option<string>,
    city: Option<string>,
    remote: Option<bool>,
    employmentTypes: Option<seq<EmploymentType>>,
    markerIcon: Option<string>,
    workplaceType: Option<string>,
    publishedAt: Option<string>
  )

  function OfferTitle(offer: Offer): string {
    offer.title.GetOr(DefaultTitle)
  }

  function OfferCompany(offer: Offer): string {
    offer.companyName.GetOr(DefaultCompany)
  }

  function OfferCity(offer: Offer): string {
    offer.city.GetOr(DefaultCity)
  }

  predicate IsRemote(offer: Offer) {
    offer.remote.GetOr(false)
  }

  /** `if query and query.lower() not in title.lower()`: the offer is rejected. */
  predicate QueryRejects(query: string, title: string) {
    |query| > 0 && !ContainsIgnoringCase(title, query)
  }

  /** The salary of the first employment type, when it states a non-zero range. */
  predicate HasSalaryRange(types: Option<seq<EmploymentType>>) {
    && types.Some? && |types.value| > 0
    && types.value[0].salary.Some?
    && var sal := types.value[0].salary.value;
    && sal.from.Some? && sal.from.value != 0
    && sal.to.Some? && sal.to.value != 0
  }

  /** `"{:,}-{:,} {}".format(from, to, currency)` */
  function RangeText(from: nat, to: nat, currency: string): string {
    Thousands.Grouped(from) + "-" + Thousands.Grouped(to) + " " + currency
  }

  /** The salary text of an offer. */
  function SalaryText(types: Option<seq<EmploymentType>>): (r: string)
    ensures !HasSalaryRange(types) ==> r == Negotiable
    ensures HasSalaryRange(types) ==>
              var sal := types.value[0].salary.value;
              r == RangeText(sal.from.value, sal.to.value, sal.currency.GetOr(DefaultCurrency))
  {
    match types
    case None => Negotiable
    case Some(ts) =>
      if |ts| == 0 then Negotiable
      else match ts[0].salary
        case None => Negotiable
        case Some(sal) =>
          if sal.from.Some? && sal.from.value != 0 && sal.to.Some? && sal.to.value != 0
          then RangeText(sal.from.value, sal.to.value, sal.currency.GetOr(DefaultCurrency))
          else Negotiable
  }

  /** `marker_icon + ' ' + workplace_type`, both defaulting to the empty string. */
  function SkillsText(offer: Offer): string {
    offer.markerIcon.GetOr("") + " " + offer.workplaceType.GetOr("")
  }

  /**
   * `JustJoinITScraper._extract_job_from_api(offer, query)`; `today` stands
   * for the ISO date used when `published_at` is missing.
   */
  function ExtractJob(offer: Offer, query: string, today: string): (r: Option<Job>)
    ensures r.None? <==> QueryRejects(query, OfferTitle(offer))
    ensures r.Some? ==>
              && r.value.title == OfferTitle(offer)
              && r.value.company == OfferCompany(offer)
              && r.value.sourcePlatform == Platform
              && r.value.jobUrl == BaseUrl + "/offers/" + offer.id.GetOr("")
              && r.value.requirements == SkillsText(offer)
              && r.value.salaryRange == SalaryText(offer.employmentTypes)
    ensures r.Some? && IsRemote(offer) ==> r.value.location == OfferCity(offer) + RemoteSuffix
    ensures r.Some? && !IsRemote(offer) ==> r.value.location == OfferCity(offer)
    ensures r.Some? ==>
              var published := offer.publishedAt.GetOr(today);
              && IsPrefix(r.value.postedDate, published)
              && |r.value.postedDate| == if |published| < DateLength then |published| else DateLength
    ensures r.Some? ==>
              var d := r.value.description;
              && |r.value.requirements| <= |d|
              && d[|d| - |r.value.requirements|..] == r.value.requirements
              && IsPrefix(r.value.title, d)
  {
    var title := OfferTitle(offer);
    var company := OfferCompany(offer);
    if QueryRejects(query, title) then None
    else
      var location := OfferCity(offer) + (if IsRemote(offer) then RemoteSuffix else "");
      var skills := SkillsText(offer);
      Some(Job(
        title := title,
        company := company,
        location := location,
        salaryRange := SalaryText(offer.employmentTypes),
        description := title + " position at " + company + ". " + skills,
        sourcePlatform := Platform,
        jobUrl := BaseUrl + "/offers/" + offer.id.GetOr(""),
        postedDate := Take(offer.publishedAt.GetOr(today), DateLength),
        requirements := skills
      ))
  }

  /** The query filter ignores letter case, and an empty query lets every offer through. */
  lemma QueryFilterIgnoresCase(offer: Offer, query: string, today: string)
    ensures ExtractJob(offer, Lower(query), today) == ExtractJob(offer, query, today)
    ensures ExtractJob(offer, "", today).Some?
  {
    LowerIdempotent(query);
  }

  /**
   * A salary range, once formatted, reads back as the two numbers: stripping the
   * commas from each side of the dash gives their decimal forms.
   */
  lemma SalaryRangeReadsBack(offer: Offer)
    requires HasSalaryRange(offer.employmentTypes)
    ensures var sal := offer.employmentTypes.value[0].salary.value;
            exists lo, hi ::
              && SalaryText(offer.employmentTypes) == lo + "-" + hi + " " + sal.currency.GetOr(DefaultCurrency)
              && Thousands.StripCommas(lo) == Thousands.Decimal(sal.from.value)
              && Thousands.StripCommas(hi) == Thousands.Decimal(sal.to.value)
              && Thousands.ValueOf(Thousands.StripCommas(lo)) == sal.from.value
              && Thousands.ValueOf(Thousands.StripCommas(hi)) == sal.to.value
              && Thousands.WellGrouped(lo) && Thousands.WellGrouped(hi)
  {
    var sal := offer.employmentTypes.value[0].salary.value;
    var lo := Thousands.Grouped(sal.from.value);
    var hi := Thousands.Grouped(sal.to.value);
    Thousands.GroupedStripsToDecimal(sal.from.value);
    Thousands.GroupedStripsToDecimal(sal.to.value);
    Thousands.GroupedShape(sal.from.value);
    Thousands.GroupedShape(sal.to.value);
    assert SalaryText(offer.employmentTypes) == lo + "-" + hi + " " + sal.currency.GetOr(DefaultCurrency);
  }

  /** The query parameters of the API request. */
  datatype ApiParams = ApiParams(page: nat, sortBy: string, orderBy: string, perPage: nat, city: Option<string>)

  function RequestParams(location: string, maxResults: nat): (p: ApiParams)
    ensures p.perPage <= MaxPerPage
    ensures p.perPage <= maxResults
    ensures maxResults <= MaxPerPage ==> p.perPage == maxResults
    ensures p.city.Some? <==> |location| > 0
  {
    ApiParams(1, "published", "DESC",
              if maxResults < MaxPerPage then maxResults else MaxPerPage,
              if |location| > 0 then Some(location) else None)
  }

  /** What the HTTP call produced: a status code and the decoded `data` list (when the key was present), or an exception. */
  datatype ApiOutcome = Answered(status: int, data: Option<seq<Offer>>) | Failed

  const SampleTitle: string := "Business Analyst - Banking Platform"
  const SampleCompany: string := "mBank Digital"
  const SampleLocation: string := "Warsaw, Poland (Hybrid)"
  const SampleSalary: string := "16,000-22,000 PLN"
  const SampleDescription: string :=
    "Business Analyst role in digital banking team. Work on innovative financial products."
  const SampleUrl: string := "https://justjoin.it/offers/business-analyst-banking"
  const SampleRequirements: string := "Business Analysis, Banking, Digital Products, Agile"

  /** `_create_sample_justjoin_jobs(query)`: one fixed job whatever the query. */
  function SampleJob(today: string): Job {
    Job(
      title := SampleTitle,
      company := SampleCompany,
      location := SampleLocation,
      salaryRange := SampleSalary,
      description := SampleDescription,
      sourcePlatform := Platform,
      jobUrl := SampleUrl,
      postedDate := today,
      requirements := SampleRequirements
    )
  }

  /** The extracted jobs of `offers`, in order, rejected offers dropped. */
  function ExtractAll(offers: seq<Offer>, query: string, today: string): (r: seq<Job>)
    ensures |r| <= |offers|
    ensures forall j :: j in r ==> exists i :: 0 <= i < |offers| && ExtractJob(offers[i], query, today) == Some(j)
    ensures forall i :: 0 <= i < |offers| && ExtractJob(offers[i], query, today).Some? ==>
              ExtractJob(offers[i], query, today).value in r
  {
    if |offers| == 0 then []
    else
      var rest := ExtractAll(offers[1..], query, today);
      assert forall i :: 1 <= i < |offers| ==> offers[1..][i - 1] == offers[i];
      match ExtractJob(offers[0], query, today)
      case Some(j) => [j] + rest
      case None => rest
  }

  /** Extraction keeps the input order: it commutes with concatenation. */
  lemma {:induction false} ExtractAllAppend(a: seq<Offer>, b: seq<Offer>, query: string, today: string)
    ensures ExtractAll(a + b, query, today) == ExtractAll(a, query, today) + ExtractAll(b, query, today)
  {
    if |a| == 0 {
      assert a + b == b;
    } else {
      var ab := a + b;
      assert ab[0] == a[0];
      assert ab[1..] == a[1..] + b;
      ExtractAllAppend(a[1..], b, query, today);
      assert ExtractAll(ab[1..], query, today) == ExtractAll(a[1..], query, today) + ExtractAll(b, query, today);
    }
  }

  /** `JustJoinITScraper.search_jobs(query, location, max_results)` after the request. */
  function Search(query: string, maxResults: nat, outcome: ApiOutcome, today: string): (r: seq<Job>)
    ensures outcome.Answered? && outcome.status == 200 ==>
              && |r| <= maxResults
              && forall j :: j in r ==>
                   exists i :: 0 <= i < |outcome.data.GetOr([])| && i < maxResults
                               && ExtractJob(outcome.data.GetOr([])[i], query, today) == Some(j)
    ensures outcome.Answered? && outcome.status == 200 ==>
              forall j :: j in r ==> j.sourcePlatform == Platform && !QueryRejects(query, j.title)
    ensures !(outcome.Answered? && outcome.status == 200) ==> r == [SampleJob(today)]
    ensures outcome.Answered? && outcome.status == 200 ==>
              r == ExtractAll(Take(outcome.data.GetOr([]), maxResults), query, today)
  {
    if outcome.Answered? && outcome.status == 200 then
      var offers := outcome.data.GetOr([]);
      var window := if |offers| <= maxResults then offers else offers[..maxResults];
      assert forall i :: 0 <= i < |window| ==> window[i] == offers[i];
      ExtractAll(window, query, today)
    else
      [SampleJob(today)]
  }

  /** Every job the scraper returns, extracted or sample, is labelled as a JustJoin.IT job. */
  lemma SearchPlatform(query: string, maxResults: nat, outcome: ApiOutcome, today: string)
    ensures forall j :: j in Search(query, maxResults, outcome, today) ==> j.sourcePlatform == Platform
  {
    var r := Search(query, maxResults, outcome, today);
    if !(outcome.Answered? && outcome.status == 200) {
      assert r == [SampleJob(today)];
      assert SampleJob(today).sourcePlatform == Platform;
    }
  }

  /** The scraper returns at most `max_results` jobs, or the one sample. */
  lemma SearchLength(query: string, maxResults: nat, outcome: ApiOutcome, today: string)
    ensures |Search(query, maxResults, outcome, today)| <= if maxResults < 1 then 1 else maxResults
  {
  }
}
