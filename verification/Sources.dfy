/**
 * The aggregator over both job sites: NoFluffJobs first, then JustJoin.IT,
 * each call guarded so that a site that raises contributes nothing and does
 * not stop the other.
 */
module Sources {
  import opened Text
  import opened Records
  import NoFluff
  import JustJoin

  /** The number of jobs scrapers are asked for when the caller passes nothing. */
  const DefaultMaxPerSource: nat := 5

  /** The aggregated list for the outcomes of the two guarded calls. */
  function Combine(nofluff: SourceOutcome, justjoin: SourceOutcome): (r: seq<Job>)
    ensures |r| == |nofluff.JobsOrNone()| + |justjoin.JobsOrNone()|
    ensures IsPrefix(nofluff.JobsOrNone(), r)
    ensures r[|nofluff.JobsOrNone()|..] == justjoin.JobsOrNone()
    ensures nofluff.Raised? ==> r == justjoin.JobsOrNone()
    ensures justjoin.Raised? ==> r == nofluff.JobsOrNone()
  {
    nofluff.JobsOrNone() + justjoin.JobsOrNone()
  }

  /**
   * Both scrapers, each given the same query and per-source limit; the
   * NoFluffJobs page and the JustJoin.IT answer stand for the network.
   */
  function GetAllJobs(query: string, location: string, maxPerSource: nat,
                      page: NoFluff.PageOutcome, api: JustJoin.ApiOutcome, today: string): (r: seq<Job>)
    ensures IsPrefix(NoFluff.Search(query, location, maxPerSource, page, today), r)
    ensures r[|NoFluff.Search(query, location, maxPerSource, page, today)|..] == JustJoin.Search(query, maxPerSource, api, today)
  {
    var nofluff := NoFluff.Search(query, location, maxPerSource, page, today);
    var justjoin := JustJoin.Search(query, maxPerSource, api, today);
    Combine(Returned(nofluff), Returned(justjoin))
  }

  /** After the NoFluffJobs part, every job is labelled as a JustJoin.IT job, whatever the answer was. */
  lemma GetAllJobsTail(query: string, location: string, maxPerSource: nat,
                       page: NoFluff.PageOutcome, api: JustJoin.ApiOutcome, today: string)
    ensures var r := GetAllJobs(query, location, maxPerSource, page, api, today);
            var n := |NoFluff.Search(query, location, maxPerSource, page, today)|;
            forall i :: n <= i < |r| ==> r[i].sourcePlatform == JustJoin.Platform
  {
    var r := GetAllJobs(query, location, maxPerSource, page, api, today);
    var n := |NoFluff.Search(query, location, maxPerSource, page, today)|;
    var justjoin := JustJoin.Search(query, maxPerSource, api, today);
    JustJoin.SearchPlatform(query, maxPerSource, api, today);
    forall i | n <= i < |r| ensures r[i].sourcePlatform == JustJoin.Platform {
      assert r[i] == r[n..][i - n] == justjoin[i - n];
    }
  }

  /**
   * The aggregated list is bounded by the per-source limit, except that the
   * sample fallbacks can add up to two NoFluffJobs jobs and one JustJoin.IT job.
   */
  lemma GetAllJobsBound(query: string, location: string, maxPerSource: nat,
                        page: NoFluff.PageOutcome, api: JustJoin.ApiOutcome, today: string)
    ensures |GetAllJobs(query, location, maxPerSource, page, api, today)|
            <= (if maxPerSource < NoFluff.MaxSamples then NoFluff.MaxSamples else maxPerSource)
               + (if maxPerSource < 1 then 1 else maxPerSource)
  {
    var nofluff := NoFluff.Search(query, location, maxPerSource, page, today);
    var justjoin := JustJoin.Search(query, maxPerSource, api, today);
    NoFluff.SearchBound(query, location, maxPerSource, page, today);
    JustJoin.SearchLength(query, maxPerSource, api, today);
    assert |GetAllJobs(query, location, maxPerSource, page, api, today)| == |nofluff| + |justjoin|;
  }

  /** With the default of five jobs per source, the aggregate holds at most ten jobs. */
  lemma DefaultAggregateBound(query: string, location: string,
                              page: NoFluff.PageOutcome, api: JustJoin.ApiOutcome, today: string)
    ensures |GetAllJobs(query, location, DefaultMaxPerSource, page, api, today)| <= 10
  {
    GetAllJobsBound(query, location, DefaultMaxPerSource, page, api, today);
  }

  /** A JustJoin.IT failure never leaves the aggregate without a JustJoin.IT job. */
  lemma JustJoinAlwaysContributes(query: string, location: string, maxPerSource: nat,
                                  page: NoFluff.PageOutcome, api: JustJoin.ApiOutcome, today: string)
    requires !(api.Answered? && api.status == 200)
    ensures var r := GetAllJobs(query, location, maxPerSource, page, api, today);
            r[|r| - 1] == JustJoin.SampleJob(today)
  {
  }
}
