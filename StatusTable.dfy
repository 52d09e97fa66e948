/**
 * The window's file table: one row per enqueued path, in enqueue order, holding the
 * base name shown in column 0, the full path stored under `Qt.UserRole`, and the
 * status text of column 1.
 */
module StatusTable {
  import opened Paths

  const Waiting := "Waiting"
  const Transcribing := "Transcribing"
  const Done := "Done"

  datatype Row = Row(name: string, path: string, status: string)

  /** The row `add_file_to_queue` inserts for `p`. */
  function WaitingRow(p: string): Row
  {
    Row(Name(p), p, Waiting)
  }

  /** The rows inserted, in order, by enqueueing each of `ps`. */
  function WaitingRows(ps: seq<string>): (rows: seq<Row>)
    ensures |rows| == |ps|
    ensures forall i :: 0 <= i < |ps| ==> rows[i] == WaitingRow(ps[i])
  {
    if ps == [] then [] else WaitingRows(ps[..|ps| - 1]) + [WaitingRow(ps[|ps| - 1])]
  }

  /** Enqueueing one more path after `ps` adds one more "Waiting" row after theirs. */
  lemma WaitingRowsSnoc(rows: seq<Row>, ps: seq<string>, p: string)
    ensures rows + WaitingRows(ps) + [WaitingRow(p)] == rows + WaitingRows(ps + [p])
  {
    assert (ps + [p])[..|ps|] == ps;
  }

  /** Index of the first row storing path `p`, or the row count when none does. */
  function FirstMatch(rows: seq<Row>, p: string): (k: nat)
    ensures k <= |rows|
    ensures forall j :: 0 <= j < k ==> rows[j].path != p
    ensures k < |rows| ==> rows[k].path == p
  {
    if rows == [] then 0
    else if rows[0].path == p then 0
    else 1 + FirstMatch(rows[1..], p)
  }

  /**
   * `update_file_status`: walk the rows in order and set the status of the first one
   * storing `p`, then stop.
   */
  function WithStatus(rows: seq<Row>, p: string, status: string): (r: seq<Row>)
    ensures |r| == |rows|
  {
    if rows == [] then []
    else if rows[0].path == p then [rows[0].(status := status)] + rows[1..]
    else [rows[0]] + WithStatus(rows[1..], p, status)
  }

  /** A match at `k` with none before it is the row the walk updates. */
  lemma WithStatusAtMatch(rows: seq<Row>, p: string, status: string, k: nat)
    requires k < |rows| && rows[k].path == p
    requires forall j :: 0 <= j < k ==> rows[j].path != p
    ensures WithStatus(rows, p, status) == rows[k := rows[k].(status := status)]
  {
    assert FirstMatch(rows, p) == k;
    WithStatusAt(rows, p, status);
  }

  /** `any(status == "Transcribing" for each row)`. */
  predicate AnyTranscribing(rows: seq<Row>)
  {
    exists i :: 0 <= i < |rows| && rows[i].status == Transcribing
  }

  /**
   * A status update changes the status of the first row storing `p` and nothing else:
   * names and paths stay, every other row stays, and with no such row the table stays.
   */
  lemma {:induction false} WithStatusAt(rows: seq<Row>, p: string, status: string)
    ensures forall j :: 0 <= j < |rows| ==>
              WithStatus(rows, p, status)[j] ==
                if j == FirstMatch(rows, p) then rows[j].(status := status) else rows[j]
  {
    if rows != [] && rows[0].path != p {
      WithStatusAt(rows[1..], p, status);
      var r := WithStatus(rows, p, status);
      forall j | 1 <= j < |rows|
        ensures r[j] == if j == FirstMatch(rows, p) then rows[j].(status := status) else rows[j]
      {
        assert r[j] == WithStatus(rows[1..], p, status)[j - 1];
      }
    }
  }

  /** With no row storing `p`, a status update leaves the table as it was. */
  lemma NoMatchNoChange(rows: seq<Row>, p: string, status: string)
    requires forall j :: 0 <= j < |rows| ==> rows[j].path != p
    ensures WithStatus(rows, p, status) == rows
  {
    WithStatusAt(rows, p, status);
  }

  /**
   * A path enqueued twice has two rows, and only the earlier one ever changes: the
   * later row keeps its "Waiting" status through any sequence of status updates.
   */
  lemma LaterDuplicateUntouched(rows: seq<Row>, p: string, status: string, i: nat, j: nat)
    requires i < j < |rows| && rows[i].path == p && rows[j].path == p
    ensures WithStatus(rows, p, status)[j] == rows[j]
    ensures WithStatus(rows, p, status)[j].path == p
  {
    WithStatusAt(rows, p, status);
  }

  /** A status update keeps every row's name and path, so the next one finds the same row. */
  lemma WithStatusKeepsPaths(rows: seq<Row>, p: string, status: string)
    ensures forall j :: 0 <= j < |rows| ==>
              WithStatus(rows, p, status)[j].path == rows[j].path &&
              WithStatus(rows, p, status)[j].name == rows[j].name
  {
    WithStatusAt(rows, p, status);
  }

  /**
   * Two updates for the same path hit the same row, the later status winning: a row
   * taken to "Transcribing" and then to "Done" ends as one update to "Done".
   */
  lemma {:induction false} WithStatusTwice(rows: seq<Row>, p: string, first: string, second: string)
    ensures WithStatus(WithStatus(rows, p, first), p, second) == WithStatus(rows, p, second)
  {
    if rows != [] && rows[0].path != p {
      WithStatusTwice(rows[1..], p, first, second);
      var once := WithStatus(rows, p, first);
      assert once[0] == rows[0] && once[1..] == WithStatus(rows[1..], p, first);
    }
  }

  /** One more "Waiting" row never changes whether some row is "Transcribing". */
  lemma AnyTranscribingAppendRow(rows: seq<Row>, p: string)
    ensures AnyTranscribing(rows + [WaitingRow(p)]) == AnyTranscribing(rows)
  {
    var all := rows + [WaitingRow(p)];
    if AnyTranscribing(all) {
      var i :| 0 <= i < |all| && all[i].status == Transcribing;
      assert i < |rows|;
      assert rows[i] == all[i];
    }
    if AnyTranscribing(rows) {
      var i :| 0 <= i < |rows| && rows[i].status == Transcribing;
      assert all[i] == rows[i];
    }
  }

  /** Enqueueing adds "Waiting" rows only, so it never starts or ends a "Transcribing" row. */
  lemma {:induction false} AnyTranscribingAppendWaiting(rows: seq<Row>, ps: seq<string>)
    ensures AnyTranscribing(rows + WaitingRows(ps)) == AnyTranscribing(rows)
  {
    var all := rows + WaitingRows(ps);
    if AnyTranscribing(all) {
      var i :| 0 <= i < |all| && all[i].status == Transcribing;
      assert i < |rows|;
      assert rows[i] == all[i];
    }
    if AnyTranscribing(rows) {
      var i :| 0 <= i < |rows| && rows[i].status == Transcribing;
      assert all[i] == rows[i];
    }
  }
}
