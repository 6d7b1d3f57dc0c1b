/**
 * The job listing query: rows whose score reaches the minimum, optionally
 * narrowed by a case-insensitive location substring and an exact status,
 * best score first and newest first among equal scores, cut to a limit.
 */
module Listing {
  import opened Text
  import opened JobStore

  /**
   * The query string of the listing route. `minScore` and `limit` are the
   * integers the route parses; an empty `location` or `status` means no filter.
   */
  datatype JobsQuery = JobsQuery(minScore: int, location: string, status: string, limit: int)

  /** The query with every parameter left out. */
  const DefaultQuery: JobsQuery := JobsQuery(0, "", "", 50)

  /** The WHERE clause. */
  predicate Matches(q: JobsQuery, row: Row) {
    && row.matchScore >= q.minScore
    && (|q.location| > 0 ==> ContainsIgnoringCase(row.location, q.location))
    && (|q.status| > 0 ==> row.status == q.status)
  }

  /** `a` may come before `b` under `ORDER BY match_score DESC, created_at DESC`. */
  predicate RanksAbove(a: Row, b: Row) {
    a.matchScore > b.matchScore || (a.matchScore == b.matchScore && a.createdAt >= b.createdAt)
  }

  predicate Ordered(rows: seq<Row>) {
    forall i, j :: 0 <= i < j < |rows| ==> RanksAbove(rows[i], rows[j])
  }

  /** The rows that satisfy the WHERE clause, in table order. */
  function Filter(q: JobsQuery, rows: seq<Row>): (r: seq<Row>)
    ensures |r| <= |rows|
    ensures multiset(r) <= multiset(rows)
    ensures forall x :: x in r <==> x in rows && Matches(q, x)
  {
    if |rows| == 0 then []
    else
      var rest := Filter(q, rows[1..]);
      assert rows == [rows[0]] + rows[1..];
      if Matches(q, rows[0]) then [rows[0]] + rest else rest
  }

  /** Places `x` before the first row it ranks above. */
  function Insert(x: Row, rows: seq<Row>): (r: seq<Row>)
    ensures multiset(r) == multiset(rows) + multiset{x}
  {
    if |rows| == 0 then [x]
    else if RanksAbove(x, rows[0]) then [x] + rows
    else
      assert rows == [rows[0]] + rows[1..];
      [rows[0]] + Insert(x, rows[1..])
  }

  /** Every row of an ordered sequence ranks below its first row. */
  lemma OrderedHead(rows: seq<Row>, y: Row)
    requires Ordered(rows) && |rows| > 0 && y in rows
    ensures RanksAbove(rows[0], y)
  {
    var j :| 0 <= j < |rows| && rows[j] == y;
    if j == 0 {
      assert rows[0] == y;
    }
  }

  /** Insertion keeps a sequence ordered. */
  lemma {:induction false} InsertOrdered(x: Row, rows: seq<Row>)
    requires Ordered(rows)
    ensures Ordered(Insert(x, rows))
  {
    if |rows| > 0 && !RanksAbove(x, rows[0]) {
      var tail := rows[1..];
      assert Ordered(tail);
      InsertOrdered(x, tail);
      var rest := Insert(x, tail);
      var r := Insert(x, rows);
      assert r == [rows[0]] + rest;
      forall j | 0 <= j < |rest| ensures RanksAbove(rows[0], rest[j]) {
        assert rest[j] in multiset(rest);
        if rest[j] != x {
          assert rest[j] in tail;
          OrderedHead(rows, rest[j]);
        }
      }
    }
  }

  /** An ordering of `rows` by rank. */
  function Sort(rows: seq<Row>): (r: seq<Row>)
    ensures multiset(r) == multiset(rows)
  {
    if |rows| == 0 then []
    else
      assert rows == [rows[0]] + rows[1..];
      Insert(rows[0], Sort(rows[1..]))
  }

  /** Sorting orders. */
  lemma {:induction false} SortOrdered(rows: seq<Row>)
    ensures Ordered(Sort(rows))
  {
    if |rows| > 0 {
      SortOrdered(rows[1..]);
      InsertOrdered(rows[0], Sort(rows[1..]));
    }
  }

  /** The matching rows in rank order, before the limit is applied. */
  function Ranked(s: Store, q: JobsQuery): (r: seq<Row>)
    ensures Ordered(r)
    ensures multiset(r) <= multiset(s.rows)
    ensures forall x :: x in r <==> x in s.rows && Matches(q, x)
  {
    var matching := Filter(q, s.rows);
    var r := Sort(matching);
    SortOrdered(matching);
    assert forall x :: x in r <==> x in multiset(matching);
    r
  }

  /**
   * The rows the listing route returns: the ranked matching rows cut to the
   * limit. SQLite reads a negative LIMIT as no limit at all.
   */
  function ListJobs(s: Store, q: JobsQuery): (r: seq<Row>)
    ensures q.limit >= 0 ==> |r| <= q.limit
    ensures q.limit < 0 || |Ranked(s, q)| <= q.limit ==> r == Ranked(s, q)
    ensures IsPrefix(r, Ranked(s, q))
  {
    var ranked := Ranked(s, q);
    if q.limit < 0 then ranked else Take(ranked, q.limit)
  }

  /**
   * Every listed row is a stored row matching the filters, listed no more
   * often than it is stored, and the rows come best score first, newest first
   * among equal scores.
   */
  lemma ListJobsSound(s: Store, q: JobsQuery)
    ensures Ordered(ListJobs(s, q))
    ensures multiset(ListJobs(s, q)) <= multiset(s.rows)
    ensures forall x :: x in ListJobs(s, q) ==> x in s.rows && Matches(q, x)
  {
    var ranked := Ranked(s, q);
    var r := ListJobs(s, q);
    PrefixContained(r, ranked);
    OrderedPrefix(r, ranked);
  }

  /** A prefix holds nothing its sequence does not. */
  lemma PrefixContained<T>(p: seq<T>, s: seq<T>)
    requires IsPrefix(p, s)
    ensures multiset(p) <= multiset(s)
    ensures forall x :: x in p ==> x in s
  {
    assert s == p + s[|p|..];
    assert multiset(s) == multiset(p) + multiset(s[|p|..]);
  }

  /** A prefix of an ordered sequence is ordered. */
  lemma OrderedPrefix(p: seq<Row>, s: seq<Row>)
    requires IsPrefix(p, s) && Ordered(s)
    ensures Ordered(p)
  {
    assert forall i :: 0 <= i < |p| ==> p[i] == s[i];
  }

  /**
   * The listing is a top-k: a matching row left out means the limit was
   * reached and every returned row ranks at least as high as it.
   */
  lemma ListJobsIsTop(s: Store, q: JobsQuery, x: Row)
    requires x in s.rows && Matches(q, x)
    requires x !in ListJobs(s, q)
    ensures q.limit >= 0 && |ListJobs(s, q)| == q.limit
    ensures forall y :: y in ListJobs(s, q) ==> RanksAbove(y, x)
  {
    var ranked := Ranked(s, q);
    var r := ListJobs(s, q);
    var p :| 0 <= p < |ranked| && ranked[p] == x;
    PrefixMisses(r, ranked, p);
    forall y | y in r ensures RanksAbove(y, x) {
      var i :| 0 <= i < |r| && r[i] == y;
      assert ranked[i] == y;
    }
  }

  /** An element of a sequence that its prefix lacks sits past the prefix. */
  lemma PrefixMisses<T>(p: seq<T>, s: seq<T>, k: nat)
    requires IsPrefix(p, s) && k < |s| && s[k] !in p
    ensures |p| <= k
    ensures forall i :: 0 <= i < |p| ==> p[i] == s[i]
  {
    assert forall i :: 0 <= i < |p| ==> p[i] == s[..|p|][i] == s[i];
  }

  /** A smaller limit returns a prefix of what a larger one returns. */
  lemma LimitPrefix(s: Store, q: JobsQuery, smaller: int)
    requires 0 <= smaller <= q.limit || (0 <= smaller && q.limit < 0)
    ensures IsPrefix(ListJobs(s, q.(limit := smaller)), ListJobs(s, q))
  {
    var q' := q.(limit := smaller);
    FilterIgnoresLimit(q, smaller, s.rows);
    var ranked := Ranked(s, q);
    assert Ranked(s, q') == ranked;
    assert ListJobs(s, q') == Take(ranked, smaller);
    if q.limit >= 0 {
      TakeGrows(ranked, smaller, q.limit);
    }
  }

  /** A shorter cut of a sequence is a prefix of a longer one. */
  lemma TakeGrows<T>(s: seq<T>, m: nat, n: nat)
    requires m <= n
    ensures IsPrefix(Take(s, m), Take(s, n))
  {
    var short := Take(s, m);
    var long := Take(s, n);
    assert forall i :: 0 <= i < |short| ==> short[i] == s[i] == long[i];
  }

  /** A filter every row passes keeps the rows as they are. */
  lemma {:induction false} FilterKeepsAll(q: JobsQuery, rows: seq<Row>)
    requires forall x :: x in rows ==> Matches(q, x)
    ensures Filter(q, rows) == rows
  {
    if |rows| > 0 {
      assert forall x :: x in rows[1..] ==> x in rows;
      FilterKeepsAll(q, rows[1..]);
      assert rows == [rows[0]] + rows[1..];
    }
  }

  /**
   * With no query parameters the route lists every row of a valid table, up
   * to the default limit of 50: scores are never negative, so none falls
   * below the default minimum of 0.
   */
  lemma DefaultListing(s: Store)
    requires Valid(s)
    ensures |ListJobs(s, DefaultQuery)| == if |s.rows| <= 50 then |s.rows| else 50
  {
    forall x | x in s.rows ensures Matches(DefaultQuery, x) {
      var i :| 0 <= i < |s.rows| && s.rows[i] == x;
    }
    FilterKeepsAll(DefaultQuery, s.rows);
    var ranked := Ranked(s, DefaultQuery);
    assert ranked == Sort(s.rows);
    assert |ranked| == |multiset(ranked)| == |multiset(s.rows)| == |s.rows|;
  }

  /** Only the WHERE clause decides which rows are filtered, not the limit. */
  lemma {:induction false} FilterIgnoresLimit(q: JobsQuery, limit: int, rows: seq<Row>)
    ensures Filter(q.(limit := limit), rows) == Filter(q, rows)
  {
    if |rows| > 0 {
      FilterIgnoresLimit(q, limit, rows[1..]);
    }
  }

  /** The location filter ignores the case of both the column and the parameter. */
  lemma LocationFilterIgnoresCase(q: JobsQuery, row: Row)
    ensures Matches(q.(location := Lower(q.location)), row) == Matches(q, row)
  {
    LowerIdempotent(q.location);
  }
}
