/** Logging a run (POST /log-run): score the submitted drops, store one run row
    carrying that score, then one rune-drop row per submitted drop. */
module Logging {
  import opened Scoring
  import opened Tables
  import opened Auth

  /** The decoded form of a run submission. The counts may be any integers and
      the drop list any list: whatever decoding made of the form arrives here
      as is. */
  datatype Submission = Submission(area: string, difficulty: string, uniques: int, sets: int, drops: seq<Drop>)

  /** The JSON reply {"status": "saved", "hr": hr}, or the gate's redirect. */
  datatype LogReply = Saved(hr: int) | Refused(reason: Denied)

  /** The drops stored for a run, in the order they were stored, as the
      (rune, quantity) pairs they were submitted as. */
  function DropsOf(table: seq<RuneDrop>, runId: nat): seq<Drop> {
    if |table| == 0 then []
    else
      var rest := DropsOf(table[1..], runId);
      if table[0].runId == runId then [Drop(table[0].rune, table[0].qty)] + rest else rest
  }

  lemma {:induction false} DropsOfAppend(a: seq<RuneDrop>, b: seq<RuneDrop>, runId: nat)
    ensures DropsOf(a + b, runId) == DropsOf(a, runId) + DropsOf(b, runId)
  {
    if |a| > 0 {
      assert (a + b)[1..] == a[1..] + b;
      DropsOfAppend(a[1..], b, runId);
    } else {
      assert a + b == b;
    }
  }

  /** `rows` are the rune-drop rows for the drops `ds` of run `runId`: one row
      per drop, in order, with the drop's rune and quantity. */
  predicate RowsFor(rows: seq<RuneDrop>, runId: nat, ds: seq<Drop>) {
    |rows| == |ds| &&
    forall k :: 0 <= k < |ds| ==> rows[k].runId == runId && rows[k].rune == ds[k].rune && rows[k].qty == ds[k].qty
  }

  /** Inserts one rune-drop row per submitted drop, each with the next drop id. */
  function AppendDrops(table: seq<RuneDrop>, runId: nat, ds: seq<Drop>): (r: seq<RuneDrop>)
    ensures |r| == |table| + |ds|
    ensures r[..|table|] == table
    ensures RowsFor(r[|table|..], runId, ds)
    ensures Ascending(DropIds(table)) ==> Ascending(DropIds(r))
    decreases |ds|
  {
    if |ds| == 0 then table
    else
      var row := RuneDrop(NextId(DropIds(table)), runId, ds[0].rune, ds[0].qty);
      var table' := table + [row];
      AppendDropRow(table, row);
      var r := AppendDrops(table', runId, ds[1..]);
      AppendDropsStep(table, row, runId, ds, r);
      r
  }

  lemma AppendDropsStep(table: seq<RuneDrop>, row: RuneDrop, runId: nat, ds: seq<Drop>, r: seq<RuneDrop>)
    requires |ds| > 0 && row == RuneDrop(row.id, runId, ds[0].rune, ds[0].qty)
    requires |r| == |table| + 1 + |ds[1..]| && r[..|table| + 1] == table + [row]
    requires RowsFor(r[|table| + 1..], runId, ds[1..])
    ensures r[..|table|] == table
    ensures RowsFor(r[|table|..], runId, ds)
  {
    assert r[..|table|] == (table + [row])[..|table|] == table;
    var tail := r[|table|..];
    assert tail == [row] + r[|table| + 1..];
    forall k | 0 <= k < |ds| ensures tail[k].runId == runId && tail[k].rune == ds[k].rune && tail[k].qty == ds[k].qty {
      if k > 0 {
        assert tail[k] == r[|table| + 1..][k - 1] && ds[k] == ds[1..][k - 1];
      }
    }
  }

  lemma AppendDropRow(table: seq<RuneDrop>, row: RuneDrop)
    requires row.id == NextId(DropIds(table))
    ensures Ascending(DropIds(table)) ==> Ascending(DropIds(table + [row]))
  {
    assert DropIds(table + [row]) == DropIds(table) + [row.id];
    if Ascending(DropIds(table)) {
      AppendNextId(DropIds(table));
    }
  }

  /** Reading back rows written for a run gives the submitted drops, in order,
      under the run's id, and nothing under any other id. */
  lemma {:induction false} DropsOfRows(rows: seq<RuneDrop>, runId: nat, ds: seq<Drop>, other: nat)
    requires RowsFor(rows, runId, ds) && other != runId
    ensures DropsOf(rows, runId) == ds
    ensures DropsOf(rows, other) == []
  {
    if |rows| > 0 {
      assert RowsFor(rows[1..], runId, ds[1..]) by {
        forall k | 0 <= k < |ds[1..]| ensures rows[1..][k].runId == runId && rows[1..][k].rune == ds[1..][k].rune && rows[1..][k].qty == ds[1..][k].qty {
          assert rows[1..][k] == rows[k + 1] && ds[1..][k] == ds[k + 1];
        }
      }
      DropsOfRows(rows[1..], runId, ds[1..], other);
      assert ds == [ds[0]] + ds[1..];
    }
  }

  /** The run row stored for a submission. Session length is always 0. */
  function NewRun(s: Store, userId: nat, sub: Submission, now: int): Run {
    Run(NextId(RunIds(s.runs)), userId, sub.area, sub.difficulty, sub.uniques, sub.sets, Score(sub.drops), 0, now)
  }

  /** The run-logging handler for the user in session: it returns the run's
      high-rune count, appends exactly one run and one rune-drop row per
      submitted drop, and leaves everything else as it was. */
  function LogRun(s: Store, userId: nat, sub: Submission, now: int): (r: (Store, int))
    ensures r.1 == Score(sub.drops)
    ensures r.0.users == s.users
    ensures r.0.runs == s.runs + [Run(NextId(RunIds(s.runs)), userId, sub.area, sub.difficulty,
                                      sub.uniques, sub.sets, r.1, 0, now)]
    ensures |r.0.drops| == |s.drops| + |sub.drops| && r.0.drops[..|s.drops|] == s.drops
    ensures RowsFor(r.0.drops[|s.drops|..], NextId(RunIds(s.runs)), sub.drops)
    ensures WellFormed(s) ==> WellFormed(r.0)
  {
    var run := NewRun(s, userId, sub, now);
    var s' := Store(s.users, s.runs + [run], AppendDrops(s.drops, run.id, sub.drops));
    LogRunKeepsWellFormed(s, userId, sub, now);
    (s', run.hrCount)
  }

  lemma LogRunKeepsWellFormed(s: Store, userId: nat, sub: Submission, now: int)
    ensures var run := NewRun(s, userId, sub, now);
      WellFormed(s) ==> WellFormed(Store(s.users, s.runs + [run], AppendDrops(s.drops, run.id, sub.drops)))
  {
    var run := NewRun(s, userId, sub, now);
    var drops' := AppendDrops(s.drops, run.id, sub.drops);
    var s' := Store(s.users, s.runs + [run], drops');
    if WellFormed(s) {
      AppendNextId(RunIds(s.runs));
      assert RunIds(s'.runs) == RunIds(s.runs) + [run.id];
      forall i | 0 <= i < |drops'| ensures exists j :: 0 <= j < |s'.runs| && s'.runs[j].id == drops'[i].runId {
        if i < |s.drops| {
          assert drops'[i] == s.drops[i];
          var j :| 0 <= j < |s.runs| && s.runs[j].id == s.drops[i].runId;
          assert s'.runs[j] == s.runs[j];
        } else {
          assert drops'[i] == drops'[|s.drops|..][i - |s.drops|];
          assert s'.runs[|s.runs|] == run;
        }
      }
    }
  }

  /** Every stored run's high-rune count is the score of the drops stored for it. */
  predicate ScoresMatchDrops(s: Store) {
    forall j :: 0 <= j < |s.runs| ==> s.runs[j].hrCount == Score(DropsOf(s.drops, s.runs[j].id))
  }

  /** Logging a run keeps every run's count in agreement with its stored drops:
      the new run reads back exactly the submitted drops, and the new rows do not
      belong to any older run. */
  lemma LogRunKeepsScoresMatching(s: Store, userId: nat, sub: Submission, now: int)
    requires WellFormed(s) && ScoresMatchDrops(s)
    ensures ScoresMatchDrops(LogRun(s, userId, sub, now).0)
  {
    var s' := LogRun(s, userId, sub, now).0;
    var newId := NextId(RunIds(s.runs));
    var added := s'.drops[|s.drops|..];
    assert s'.drops == s.drops + added;
    // No stored drop belongs to the new run: every one names an existing run id.
    assert DropsOf(s.drops, newId) == [] by {
      forall i | 0 <= i < |s.drops| ensures s.drops[i].runId != newId {
        var j :| 0 <= j < |s.runs| && s.runs[j].id == s.drops[i].runId;
        assert RunIds(s.runs)[j] < newId;
      }
      NoDropsForUnusedRun(s.drops, newId);
    }
    forall j | 0 <= j < |s'.runs| ensures s'.runs[j].hrCount == Score(DropsOf(s'.drops, s'.runs[j].id)) {
      DropsOfAppend(s.drops, added, s'.runs[j].id);
      if j < |s.runs| {
        assert s'.runs[j] == s.runs[j];
        assert s.runs[j].id < newId;
        DropsOfRows(added, newId, sub.drops, s.runs[j].id);
        assert DropsOf(s.drops, s.runs[j].id) + [] == DropsOf(s.drops, s.runs[j].id);
      } else {
        DropsOfRows(added, newId, sub.drops, newId + 1);
        assert [] + sub.drops == sub.drops;
      }
    }
  }

  /** A run id no stored drop names has no drops. */
  lemma {:induction false} NoDropsForUnusedRun(table: seq<RuneDrop>, runId: nat)
    requires forall i :: 0 <= i < |table| ==> table[i].runId != runId
    ensures DropsOf(table, runId) == []
  {
    if |table| > 0 {
      assert forall i :: 0 <= i < |table[1..]| ==> table[1..][i] == table[i + 1];
      NoDropsForUnusedRun(table[1..], runId);
    }
  }

  /** POST /log-run behind the authentication gate: without a user in session
      nothing is stored and the request is redirected; with one, the run is
      logged for that user and the reply carries its high-rune count. */
  function HandleLogRun(s: Store, session: Session, sub: Submission, now: int): (r: (Store, LogReply))
    ensures session.None? ==> r == (s, Refused(RedirectToLoginPage))
    ensures session.Some? ==> r.1 == Saved(Score(sub.drops)) && r.0 == LogRun(s, session.value, sub, now).0
  {
    match Gate(session)
    case Deny(reason) => (s, Refused(reason))
    case Admit(userId) =>
      var (s', hr) := LogRun(s, userId, sub, now);
      (s', Saved(hr))
  }
}
