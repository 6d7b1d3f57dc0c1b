/**
 * The grouped counts of the statistics route: `SELECT x, COUNT(*) FROM jobs
 * GROUP BY x` turned into a dictionary, for the status and the platform.
 */
module Stats {
  import opened JobStore

  /** Adds one occurrence of `v` to a tally. */
  function Bump(m: map<string, nat>, v: string): (r: map<string, nat>)
    ensures r.Keys == m.Keys + {v}
    ensures r[v] == (if v in m then m[v] else 0) + 1
    ensures forall k :: k in m && k != v ==> r[k] == m[k]
  {
    m[v := (if v in m then m[v] else 0) + 1]
  }

  /**
   * The dictionary of a GROUP BY with COUNT(*): one key per distinct value,
   * each mapped to how often it occurs.
   */
  function GroupCount(vals: seq<string>): (r: map<string, nat>)
    ensures r.Keys == set v | v in vals
    ensures forall k :: k in r ==> r[k] == multiset(vals)[k] && r[k] > 0
    decreases |vals|
  {
    if |vals| == 0 then map[]
    else
      var init := vals[..|vals| - 1];
      var last := vals[|vals| - 1];
      assert vals == init + [last];
      Bump(GroupCount(init), last)
  }

  /** Some key of a non-empty tally. */
  ghost function Pick(m: map<string, nat>): (k: string)
    requires |m.Keys| != 0
    ensures k in m
  {
    var k :| k in m.Keys; k
  }

  /** The sum of the counts of a tally. */
  ghost function Total(m: map<string, nat>): nat
    decreases |m.Keys|
  {
    if |m.Keys| == 0 then 0
    else
      var k := Pick(m);
      assert (m - {k}).Keys == m.Keys - {k};
      m[k] + Total(m - {k})
  }

  /** The sum does not depend on which key is taken out first. */
  lemma {:induction false} TotalRemove(m: map<string, nat>, k: string)
    requires k in m
    ensures Total(m) == m[k] + Total(m - {k})
    decreases |m.Keys|
  {
    assert k in m.Keys;
    var j := Pick(m);
    assert Total(m) == m[j] + Total(m - {j});
    if j != k {
      var mj := m - {j};
      var mk := m - {k};
      assert |mj.Keys| < |m.Keys| by { assert mj.Keys == m.Keys - {j}; }
      assert |mk.Keys| < |m.Keys| by { assert mk.Keys == m.Keys - {k}; }
      TotalRemove(mj, k);
      TotalRemove(mk, j);
      assert mj - {k} == mk - {j};
    }
  }

  /** Counting one more value adds one to the sum. */
  lemma TotalBump(m: map<string, nat>, v: string)
    ensures Total(Bump(m, v)) == Total(m) + 1
  {
    var b := Bump(m, v);
    TotalRemove(b, v);
    if v in m {
      TotalRemove(m, v);
      assert b - {v} == m - {v};
    } else {
      assert b - {v} == m;
    }
  }

  /** The counts add up to the number of values grouped. */
  lemma {:induction false} GroupCountTotal(vals: seq<string>)
    ensures Total(GroupCount(vals)) == |vals|
    decreases |vals|
  {
    if |vals| > 0 {
      var init := vals[..|vals| - 1];
      GroupCountTotal(init);
      TotalBump(GroupCount(init), vals[|vals| - 1]);
    }
  }

  function Statuses(rows: seq<Row>): (r: seq<string>)
    ensures |r| == |rows|
    ensures forall i :: 0 <= i < |rows| ==> r[i] == rows[i].status
  {
    seq(|rows|, i requires 0 <= i < |rows| => rows[i].status)
  }

  function Platforms(rows: seq<Row>): (r: seq<string>)
    ensures |r| == |rows|
    ensures forall i :: 0 <= i < |rows| ==> r[i] == rows[i].sourcePlatform
  {
    seq(|rows|, i requires 0 <= i < |rows| => rows[i].sourcePlatform)
  }

  /** `by_status`: how many rows carry each status. */
  function ByStatus(s: Store): (r: map<string, nat>)
    ensures forall k :: k in r <==> exists i :: 0 <= i < |s.rows| && s.rows[i].status == k
    ensures Valid(s) ==> forall k :: k in r ==> ValidStatus(k)
  {
    var statuses := Statuses(s.rows);
    assert forall i :: 0 <= i < |s.rows| ==> statuses[i] in statuses;
    GroupCount(statuses)
  }

  /** `by_platform`: how many rows came from each platform. */
  function ByPlatform(s: Store): (r: map<string, nat>)
    ensures forall k :: k in r <==> exists i :: 0 <= i < |s.rows| && s.rows[i].sourcePlatform == k
  {
    var platforms := Platforms(s.rows);
    assert forall i :: 0 <= i < |s.rows| ==> platforms[i] in platforms;
    GroupCount(platforms)
  }

  /** Each row is counted once under its status and once under its platform. */
  lemma StatsCountEveryRow(s: Store)
    ensures Total(ByStatus(s)) == |s.rows|
    ensures Total(ByPlatform(s)) == |s.rows|
  {
    GroupCountTotal(Statuses(s.rows));
    GroupCountTotal(Platforms(s.rows));
  }
}
