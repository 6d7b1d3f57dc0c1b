/** The job record every scraper produces and the ingestion step consumes. */
module Records {

  /** A scraped posting, with the fields the scrapers fill in. */
  datatype Job = Job(
    title: string,
    company: string,
    location: string,
    salaryRange: string,
    description: string,
    sourcePlatform: string,
    jobUrl: string,
    postedDate: string,
    requirements: string
  )

  /** The outcome of calling one source: the jobs it returned, or an exception it raised. */
  datatype SourceOutcome = Returned(jobs: seq<Job>) | Raised {
    /** What a caller that swallows the exception keeps: nothing from a source that raised. */
    function JobsOrNone(): seq<Job> {
      match this
      case Returned(js) => js
      case Raised => []
    }
  }
}
