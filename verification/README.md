# Job search backend: scoring, job store and scraper normalisation in Dafny

This project models two parts of a job-search backend.

The first part is the Flask API's core, over an in-memory `jobs` table:
- the keyword match score;
- batch ingestion with `INSERT OR IGNORE` and the `new_jobs` counter;
- the filtered, ordered and limited job listing;
- the status update with its six allowed statuses;
- the per-status and per-platform counts of the statistics route.

The second part is the record normalisation of the two scrapers:
- the JustJoin.IT offer-to-job mapping, including the `"{:,}"` salary formatting;
- the JustJoin.IT post-processing and sample fallback;
- the NoFluffJobs sample filter and fallback;
- the concatenation of both sources.

The modules follow the program's structure:
- `Text`: ASCII lower-casing, substring search and prefixes.
- `Scoring`: `calculate_match_score`.
- `Thousands`: `"{:,}"` formatting of naturals.
- `Records`: the scraped job record and the outcome of a guarded source call.
- `JustJoin`: `JustJoinITScraper`.
- `NoFluff`: `NoFluffJobsScraper` after HTML parsing.
- `Sources`: `get_all_jobs`.
- `JobStore`: the table and ingestion.
- `Listing`: `get_jobs`.
- `StatusUpdate`: `update_job_status`.
- `Stats`: the grouped counts of `get_statistics`.

Abstractions:
- The network and the HTML parser become parameters: the NoFluffJobs page is the list of per-card extraction results, and the JustJoin.IT answer is a status code plus the decoded offer list.
- `datetime.now()` becomes a `today` string.
- The table's `created_at` becomes a natural-number stamp shared by one ingestion batch.

Where the code and the written design disagree, the model follows the code:
- The bonus is 10 points per term over four terms ("senior", "business analyst", "product manager", "remote"), not 5.
- Listing ties are broken by `created_at`, not `posted_date`.
- Locations are not canonicalised: "remote" synonyms are left as written.

## Model

| member | source | states |
|---|---|---|
| Scoring.MatchScore | backend/app.py:74-97 | the score always lies between 0 and 100, for every title, description and skill list |
| Scoring.ScoreFormula | backend/app.py:80-96 | the score is min(h*100/13 + 10*b, 100), where h is the number of the 13 skills and b the number of the 4 bonus terms found in the lower-cased "title description" text |
| Scoring.HitsCountMatchedTerms | backend/app.py:87 | counting hits over a duplicate-free term list gives the size of the set of terms found in the text |
| Scoring.TextScoreMonotone | backend/app.py:87-96 | finding at least as many skills and bonus terms never gives a lower score |
| Scoring.ScoreMonotoneInDescription | backend/app.py:86-96 | appending text to the description never lowers the score |
| Scoring.ScoreNormalisation | backend/app.py:74-86 | a missing description scores like "", the user's skills make no difference, and lower-casing title and description leaves the score unchanged |
| Scoring.ScoreExample | backend/app.py:80-96 | "Senior Business Analyst" with an empty description scores 35: two skills give 15 and two bonus terms give 20 |
| Thousands.GroupedStripsToDecimal | backend/job_scrapers.py:255 | removing the commas from "{:,}" of n gives the plain decimal form of n, which reads back as n |
| Thousands.GroupedShape | backend/job_scrapers.py:255 | "{:,}" of n has a first group of 1 to 3 digits, every later group has exactly 3, and it starts with '0' only for n = 0 |
| JustJoin.ExtractJob | backend/job_scrapers.py:230-272 | the offer is dropped exactly when a non-empty query is not a case-insensitive substring of the title. Otherwise the job has the offer's title and company, platform justjoinit, url base + "/offers/" + id, the salary text, city plus ", Remote" exactly when remote is truthy, a date that is the first min(10, length) characters of published_at, and a description that starts with the title and ends with the requirements |
| JustJoin.QueryFilterIgnoresCase | backend/job_scrapers.py:236-238 | the query's letter case does not change the extraction, and an empty query never drops an offer |
| JustJoin.SalaryText | backend/job_scrapers.py:246-255 | the salary is "Salary negotiable" unless the first employment type has a salary with non-zero from and to; then it is the two grouped numbers, a dash, and the currency (PLN when absent) |
| JustJoin.SalaryRangeReadsBack | backend/job_scrapers.py:246-255 | a formatted salary range splits into two well-grouped numbers that read back as the offer's from and to |
| JustJoin.RequestParams | backend/job_scrapers.py:196-205 | perPage is at most 100 and at most max_results, and equals max_results up to 100; the city parameter is sent exactly when the location is non-empty |
| JustJoin.ExtractAll | backend/job_scrapers.py:216-219 | every job comes from an offer that passed extraction, and every offer that passed contributes its job |
| JustJoin.ExtractAllAppend | backend/job_scrapers.py:216-219 | extraction keeps the input order: extracting a concatenation concatenates the extractions |
| JustJoin.Search | backend/job_scrapers.py:190-228 | on a 200 answer the result is exactly the extraction of the first max_results offers, in offer order: at most max_results jobs, each from one of those offers, labelled justjoinit, with a title the query accepts; otherwise it is exactly the one fixed sample job |
| JustJoin.SearchLength | backend/job_scrapers.py:209-228 | the scraper returns at most max_results jobs, or the one sample job |
| JustJoin.SearchPlatform | backend/job_scrapers.py:209-228 | every job the scraper returns, extracted or sample, has platform justjoinit |
| NoFluff.KeepMentioning | backend/job_scrapers.py:170-174 | the kept jobs are an order-preserving subsequence, and a job is kept exactly when its title or description contains the query, ignoring case |
| NoFluff.SampleJobs | backend/job_scrapers.py:140-176 | at most 2 jobs forming an order-preserving subsequence of the two samples. When the query is neither empty nor "business analyst" in any case, a sample is kept exactly when it mentions the query; otherwise both samples are returned |
| NoFluff.SampleExample | backend/job_scrapers.py:144-176 | the query "Senior Business Analyst" keeps only the FinTech sample |
| NoFluff.CardJobs | backend/job_scrapers.py:63-70 | at most max_results jobs: the successful extractions among the first max_results cards, in card order, and none exactly when every such card failed |
| NoFluff.ExtractedAppend | backend/job_scrapers.py:63-70 | each successful card adds its job once, in card order: extracting a concatenation of cards concatenates the extractions |
| NoFluff.Search | backend/job_scrapers.py:32-84 | the samples replace the card jobs when the request failed, or when no card yielded a job and the query is non-empty; otherwise the card jobs are returned |
| NoFluff.SearchBound | backend/job_scrapers.py:32-84 | the scraper returns at most max_results jobs, or at most the two samples |
| Sources.Combine | backend/job_scrapers.py:294-316 | the NoFluffJobs jobs come first and the JustJoin.IT jobs after them; a source that raised contributes nothing and leaves the other source's jobs whole |
| Sources.GetAllJobs | backend/job_scrapers.py:294-316 | the NoFluffJobs result comes first, followed by exactly the JustJoin.IT result for the same query and limit |
| Sources.DefaultAggregateBound | backend/job_scrapers.py:294-316 | with the default max_per_source of 5 the aggregate holds at most 10 jobs |
| Sources.JustJoinAlwaysContributes | backend/job_scrapers.py:306-316 | when the JustJoin.IT request fails or answers other than 200, the aggregate ends with the JustJoin.IT sample job |
| Sources.GetAllJobsTail | backend/job_scrapers.py:307-312 | every job after the NoFluffJobs part is labelled justjoinit, whatever the JustJoin.IT answer was |
| Sources.GetAllJobsBound | backend/job_scrapers.py:294-316 | the aggregate holds at most max(2, max_per_source) + max(1, max_per_source) jobs |
| JobStore.InsertOrIgnore | backend/app.py:184-195 | a row is added exactly when no row has the job's exact (title, company). The new row carries the job's fields, the computed score, status 'found' and the next id; otherwise the table is unchanged. Afterwards the key is present |
| JobStore.InsertKeepsValid | backend/app.py:184-195 | an insert keeps ids and keys unique, every status allowed and every score between 0 and 100 |
| JobStore.Ingested | backend/app.py:176-195 | ingestion never removes a row and adds at most one row per job |
| JobStore.IngestedKeepsRows | backend/app.py:176-195 | ingestion only appends: every existing row, its score and status included, is kept as it was |
| JobStore.IngestedKeepsValid | backend/app.py:176-195 | ingestion keeps ids and keys unique, every status allowed and every score between 0 and 100 |
| JobStore.IngestedHasKeys | backend/app.py:176-195 | after ingestion every key of the batch is present and no key was lost |
| JobStore.IngestedNewRow | backend/app.py:176-195 | every added row comes from the first job of the batch with that key, whose key was absent before, and carries that job's fields, score and status 'found' |
| JobStore.IngestIdempotent | backend/app.py:176-195 | re-ingesting the same batch, at any later time, leaves the table unchanged |
| JobStore.IngestBatch | backend/app.py:174-198 | the loop leaves the table that insert-or-ignore of each job in order produces, and reports the counter the route computes |
| JobStore.ReportedNewJobsBounds | backend/app.py:197-198 | new_jobs is 0 exactly when nothing was inserted, and lies between the number of inserted rows and the batch length |
| JobStore.ReportedNewJobsFromFirstInsert | backend/app.py:197-198 | a positive new_jobs equals the number of jobs from the first actual insert to the end of the batch |
| JobStore.ReportedNewJobsOvercounts | backend/app.py:197-198 | the same job twice in one batch stores one row but reports 2 new jobs |
| JobStore.IngestBatchCounted | backend/app.py:223-224 | the corrected loop reports exactly the number of rows inserted |
| Listing.Filter | backend/app.py:244-253 | a row is kept exactly when its score reaches min_score, its location contains a non-empty location filter ignoring ASCII case, and its status equals a non-empty status filter |
| Listing.InsertOrdered | backend/app.py:255 | inserting a row into a list ordered by score then created_at, both descending, keeps it ordered |
| Listing.SortOrdered | backend/app.py:255 | sorting orders by score descending, then created_at descending |
| Listing.Ranked | backend/app.py:244-255 | the matching rows ordered by score, then created_at, both descending: a row is listed exactly when it is stored and matches, and never more often than it is stored |
| Listing.ListJobs | backend/app.py:255-256 | at most limit rows, a prefix of the ranked list, and all of it when the limit is negative or not reached |
| Listing.ListJobsSound | backend/app.py:244-256 | every listed row is a stored row matching the filters, listed no more often than stored, in score-then-created_at order |
| Listing.ListJobsIsTop | backend/app.py:255-256 | a matching row that is left out means the limit was reached and every returned row ranks at least as high |
| Listing.LimitPrefix | backend/app.py:255-256 | a smaller limit returns a prefix of what a larger one returns |
| Listing.DefaultListing | backend/app.py:236-256 | with no query parameters (min_score 0, limit 50) a valid table lists min(rows, 50) rows, because no score is negative |
| Listing.LocationFilterIgnoresCase | backend/app.py:247-249 | the location filter ignores the letter case of the parameter |
| StatusUpdate.UpdateStatus | backend/app.py:305-317 | "Invalid status" exactly when the status is missing or not among the six allowed values, and "not found" exactly when it is allowed but no row has the id; both leave the table unchanged. Otherwise only the status of the row with that id changes, and the table invariants are kept |
| StatusUpdate.Changes | backend/app.py:310-313 | the UPDATE changes no row exactly when no row has the id |
| StatusUpdate.SetStatusTwice | backend/app.py:310 | of two UPDATEs of the same row, the second one's status stays |
| StatusUpdate.UpdateSameStatus | backend/app.py:309-314 | setting the status a row already has still succeeds and changes nothing |
| StatusUpdate.UpdateIdempotent | backend/app.py:305-317 | repeating the same update is the same as doing it once |
| StatusUpdate.LastWriteWins | backend/app.py:305-317 | any allowed status can replace any other: two updates in a row equal the second alone |
| Stats.GroupCount | backend/app.py:333-338 | the keys are exactly the values that occur, and each maps to its number of occurrences, which is positive |
| Stats.GroupCountTotal | backend/app.py:333-338 | the counts add up to the number of values grouped |
| Stats.ByStatus | backend/app.py:333-334 | a status is a key exactly when some row has it, and on a valid table every key is an allowed status |
| Stats.ByPlatform | backend/app.py:337-338 | a platform is a key exactly when some row comes from it |
| Stats.StatsCountEveryRow | backend/app.py:333-338 | both the by_status and the by_platform counts add up to the number of rows |

## Left out

- Flask routing, JSON encoding, CORS, SQLite connections, commits and the table DDL: the table is a sequence of rows and the routes are functions.
- HTTP sessions, headers, timeouts and `response.json()`: each scraper takes the outcome of its request as a parameter.
- NoFluffJobs HTML extraction (`_extract_job_from_card` and the card selectors) depends on the page's DOM: the parsed page is given as the list of per-card extraction results.
- `datetime.now()` and `CURRENT_TIMESTAMP`: a `today` string and an abstract stamp per batch stand for them.
- The `searches_last_week` count and the search-history insert: both are date arithmetic on another table.
- `avg_match_score`: floating-point average and rounding.
- `search_real_jobs`, `search_demo_jobs` and the demo constants: a fallback wrapper that returns constants.
- `get_job_details`: a single-row lookup that carries no logic.
- Scoring.MatchScore: `int((m / 13) * 100)` is computed as `m * 100 / 13` in integer arithmetic. These agree for every m from 0 to 13.
- Text.Lower: only ASCII letters are lower-cased; Unicode case folding is not modelled.
- Listing.Matches: the `%` and `_` wildcards inside a user's location filter are not modelled; the filter is taken literally.
- Listing.ListJobs: rows tied on both score and `created_at` come in a fixed order chosen by the model, while SQLite leaves that order unspecified. The contracts only state the ranking.
- JobStore.IngestBatch: the per-job score attached to the returned jobs is not an out-parameter; each stored row carries it through `InsertedFrom`.
- JobStore.IngestBatch: database errors inside the loop, which the route logs and skips, are not modelled.
- JustJoin.ExtractJob: JSON `null` and non-string values in an offer are not modelled. Python would raise (the job becomes `None`) or format them as text; every offer field is an optional string or natural here.
- JustJoin.Search: `max_results` is a natural, so negative Python slicing is not modelled. Float salary amounts are not modelled either.
- NoFluff.Search: the unused request parameters (`criteria`, `city`, `page`) are not modelled.
- StatusUpdate.UpdateStatus: a request body that is not JSON makes the route answer 500; this is not modelled.

## Findings

| source | as written | input that shows it | evidently intended | confidence | as-written member | corrected member |
|---|---|---|---|---|---|---|
| backend/app.py:197-198 | `new_jobs_count` goes up whenever the connection's cumulative `total_changes` is positive, so after the first insert every later job counts, whether or not it was inserted | an empty table and the same job twice in one batch: one row is stored, `new_jobs` is 2 | count the jobs actually inserted, as the message "N new" says | high; derived from SQLite's documented `total_changes` semantics, not executed | JobStore.ReportedNewJobsOvercounts | JobStore.IngestBatchCounted |
