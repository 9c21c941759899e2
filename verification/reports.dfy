/** The dashboard figures of the user in session: run count and summed
    high-rune count, read from the run table. */
module Reports {
  import opened Scoring
  import opened Tables
  import opened Logging

  /** The dashboard figures: how many runs the user logged and their total
      high-rune count. */
  datatype Totals = Totals(totalRuns: nat, totalHr: int)

  /** Positions of the user's runs in the run table. */
  function RunIndices(runs: seq<Run>, userId: nat): set<nat> {
    set i: nat | i < |runs| && runs[i].userId == userId
  }

  /** COUNT of the runs whose user is `userId`. */
  function RunCount(runs: seq<Run>, userId: nat): (c: nat)
    ensures c <= |runs|
  {
    if |runs| == 0 then 0
    else RunCount(runs[..|runs| - 1], userId) + (if runs[|runs| - 1].userId == userId then 1 else 0)
  }

  /** SUM of the high-rune counts of the user's runs, read as 0 when the user has
      no runs (the COALESCE around the SQL SUM). */
  function HrTotal(runs: seq<Run>, userId: nat): int {
    if |runs| == 0 then 0
    else HrTotal(runs[..|runs| - 1], userId) + (if runs[|runs| - 1].userId == userId then runs[|runs| - 1].hrCount else 0)
  }

  lemma {:induction false} RunCountCountsIndices(runs: seq<Run>, userId: nat)
    ensures RunCount(runs, userId) == |RunIndices(runs, userId)|
  {
    if |runs| > 0 {
      var init := runs[..|runs| - 1];
      var last := |runs| - 1;
      RunCountCountsIndices(init, userId);
      assert forall i :: 0 <= i < |init| ==> init[i] == runs[i];
      if runs[last].userId == userId {
        assert RunIndices(runs, userId) == RunIndices(init, userId) + {last};
      } else {
        assert RunIndices(runs, userId) == RunIndices(init, userId);
      }
    }
  }

  /** A user with no runs has a total of zero. */
  lemma {:induction false} NoRunsNoHr(runs: seq<Run>, userId: nat)
    requires RunCount(runs, userId) == 0
    ensures HrTotal(runs, userId) == 0
  {
    if |runs| > 0 {
      NoRunsNoHr(runs[..|runs| - 1], userId);
    }
  }

  /** With no negative counts stored, no total is negative. */
  lemma {:induction false} HrTotalNonNegative(runs: seq<Run>, userId: nat)
    requires forall i :: 0 <= i < |runs| ==> runs[i].hrCount >= 0
    ensures HrTotal(runs, userId) >= 0
  {
    if |runs| > 0 {
      HrTotalNonNegative(runs[..|runs| - 1], userId);
    }
  }

  /** The dashboard of user `userId`: its run count is the number of runs that
      user logged; its high-rune total is 0 when there are none. */
  function Dashboard(s: Store, userId: nat): (t: Totals)
    ensures t.totalRuns == |RunIndices(s.runs, userId)|
    ensures t.totalRuns <= |s.runs|
    ensures t.totalRuns == 0 ==> t.totalHr == 0
    ensures (forall i :: 0 <= i < |s.runs| ==> s.runs[i].hrCount >= 0) ==> t.totalHr >= 0
  {
    DashboardFacts(s.runs, userId);
    Totals(RunCount(s.runs, userId), HrTotal(s.runs, userId))
  }

  lemma DashboardFacts(runs: seq<Run>, userId: nat)
    ensures RunCount(runs, userId) == |RunIndices(runs, userId)| <= |runs|
    ensures RunCount(runs, userId) == 0 ==> HrTotal(runs, userId) == 0
    ensures (forall i :: 0 <= i < |runs| ==> runs[i].hrCount >= 0) ==> HrTotal(runs, userId) >= 0
  {
    RunCountCountsIndices(runs, userId);
    if RunCount(runs, userId) == 0 {
      NoRunsNoHr(runs, userId);
    }
    if forall i :: 0 <= i < |runs| ==> runs[i].hrCount >= 0 {
      HrTotalNonNegative(runs, userId);
    }
  }

  /** Logging a run for user `u` raises u's dashboard by one run and by the run's
      high-rune count, and leaves every other user's dashboard unchanged. */
  lemma DashboardAfterLogRun(s: Store, u: nat, sub: Submission, now: int, v: nat)
    ensures var before := Dashboard(s, v);
      var after := Dashboard(LogRun(s, u, sub, now).0, v);
      if v == u then after == Totals(before.totalRuns + 1, before.totalHr + Score(sub.drops))
      else after == before
  {
    var runs' := LogRun(s, u, sub, now).0.runs;
    assert runs'[..|runs'| - 1] == s.runs;
  }
}
