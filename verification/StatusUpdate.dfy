/**
 * The status route: a requested status outside the six allowed values is
 * refused before the table is touched; otherwise the row with the given id
 * gets the new status, and an id no row carries is reported as not found.
 */
module StatusUpdate {
  import opened Wrappers
  import opened JobStore

  /** 200, 400 "Invalid status" and 404 "Job not found". */
  datatype StatusReply = Updated | InvalidStatus | NotFound

  datatype StatusOutcome = StatusOutcome(store: Store, reply: StatusReply)

  /** The `status` field of the request body is present and allowed. */
  predicate Acceptable(requested: Option<string>) {
    requested.Some? && ValidStatus(requested.value)
  }

  /** `UPDATE jobs SET status = ? WHERE id = ?` on the rows. */
  function SetStatus(rows: seq<Row>, id: nat, status: string): (r: seq<Row>)
    ensures |r| == |rows|
    ensures forall i :: 0 <= i < |rows| ==> r[i] == if rows[i].id == id then rows[i].(status := status) else rows[i]
  {
    seq(|rows|, i requires 0 <= i < |rows| => if rows[i].id == id then rows[i].(status := status) else rows[i])
  }

  /** Rewriting an allowed status keeps the table's invariants: ids and keys do not move. */
  lemma SetStatusKeepsValid(s: Store, id: nat, status: string)
    ensures Valid(s) && ValidStatus(status) ==> Valid(Store(SetStatus(s.rows, id, status), s.nextId))
  {
    var rows := SetStatus(s.rows, id, status);
    assert forall i :: 0 <= i < |rows| ==> Key(rows[i]) == Key(s.rows[i]) && rows[i].id == s.rows[i].id;
  }

  /** The second of two rewrites of the same row is the one that stays. */
  lemma SetStatusTwice(rows: seq<Row>, id: nat, first: string, second: string)
    ensures SetStatus(SetStatus(rows, id, first), id, second) == SetStatus(rows, id, second)
  {
    var once := SetStatus(rows, id, first);
    assert forall i :: 0 <= i < |rows| ==> once[i].id == rows[i].id;
  }

  /** The number of rows the UPDATE touches: SQLite's change count. */
  function Changes(s: Store, id: nat): (n: nat)
    ensures n == 0 <==> !HasId(s, id)
  {
    var matched := set i | 0 <= i < |s.rows| && s.rows[i].id == id;
    if |matched| == 0 then
      assert matched == {};
      assert !HasId(s, id) by {
        forall i | 0 <= i < |s.rows| ensures s.rows[i].id != id {
          assert i !in matched;
        }
      }
      0
    else
      assert HasId(s, id) by {
        var i :| i in matched;
      }
      |matched|
  }

  /**
   * The status route. The update counts as a change even when the row already
   * had that status, so "not found" means exactly that no row has the id.
   */
  function UpdateStatus(s: Store, id: nat, requested: Option<string>): (r: StatusOutcome)
    ensures r.reply == InvalidStatus <==> !Acceptable(requested)
    ensures r.reply == NotFound <==> Acceptable(requested) && !HasId(s, id)
    ensures r.reply != Updated ==> r.store == s
    ensures r.reply == Updated ==>
              && r.store.nextId == s.nextId
              && |r.store.rows| == |s.rows|
              && (forall i :: 0 <= i < |s.rows| && s.rows[i].id == id ==> r.store.rows[i].status == requested.value)
              && (forall i :: 0 <= i < |s.rows| ==> r.store.rows[i].(status := s.rows[i].status) == s.rows[i])
              && (forall i :: 0 <= i < |s.rows| && s.rows[i].id != id ==> r.store.rows[i] == s.rows[i])
    ensures Valid(s) ==> Valid(r.store)
  {
    if !Acceptable(requested) then StatusOutcome(s, InvalidStatus)
    else if Changes(s, id) == 0 then StatusOutcome(s, NotFound)
    else
      SetStatusKeepsValid(s, id, requested.value);
      StatusOutcome(Store(SetStatus(s.rows, id, requested.value), s.nextId), Updated)
  }

  /** Setting the status a row already has is accepted and changes nothing. */
  lemma UpdateSameStatus(s: Store, id: nat, status: string)
    requires ValidStatus(status)
    requires forall i :: 0 <= i < |s.rows| && s.rows[i].id == id ==> s.rows[i].status == status
    requires HasId(s, id)
    ensures UpdateStatus(s, id, Some(status)) == StatusOutcome(s, Updated)
  {
    var r := UpdateStatus(s, id, Some(status));
    assert r.store.rows == s.rows by {
      forall i | 0 <= i < |s.rows| ensures r.store.rows[i] == s.rows[i] {
        assert r.store.rows[i].(status := s.rows[i].status) == s.rows[i];
        if s.rows[i].id == id {
          assert r.store.rows[i].status == s.rows[i].status;
        }
      }
    }
  }

  /** Updating twice with the same status is updating once. */
  lemma UpdateIdempotent(s: Store, id: nat, status: string)
    ensures var once := UpdateStatus(s, id, Some(status));
            UpdateStatus(once.store, id, Some(status)).store == once.store
  {
    var once := UpdateStatus(s, id, Some(status));
    if once.reply == Updated {
      UpdateSameStatus(once.store, id, status);
      var i :| 0 <= i < |s.rows| && s.rows[i].id == id;
      assert once.store.rows[i].id == id;
    }
  }

  /** Of two accepted updates of the same row, the later one wins. */
  lemma LastWriteWins(s: Store, id: nat, first: string, second: string)
    requires ValidStatus(first) && ValidStatus(second)
    ensures UpdateStatus(UpdateStatus(s, id, Some(first)).store, id, Some(second))
            == UpdateStatus(s, id, Some(second))
  {
    var once := UpdateStatus(s, id, Some(first));
    if HasId(s, id) {
      var k :| 0 <= k < |s.rows| && s.rows[k].id == id;
      assert once.store.rows[k].id == id;
      SetStatusTwice(s.rows, id, first, second);
    }
  }
}
