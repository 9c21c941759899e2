/** The leaderboard: runs joined with their users, grouped per user, ordered by
    total high-rune count from highest to lowest, and cut at ten rows. */
module Leaderboard {
  import opened Tables
  import opened Reports

  /** One leaderboard row: the user's name, total high-rune count and run count. */
  datatype Leader = Leader(username: string, totalHr: int, runs: nat)

  const LeaderboardSize: nat := 10

  /** The grouped row of one user. */
  function RowOf(u: User, runs: seq<Run>): Leader {
    Leader(u.username, HrTotal(runs, u.id), RunCount(runs, u.id))
  }

  /** The inner join grouped by user: one row for every user with at least one
      run, and none for users without runs. Runs whose user does not exist
      join with nothing and are dropped. */
  function Groups(users: seq<User>, runs: seq<Run>): (g: seq<Leader>)
    ensures forall row :: row in g <==> IsGroupRow(users, runs, row)
  {
    if |users| == 0 then []
    else
      var rest := Groups(users[1..], runs);
      assert forall k :: 0 <= k < |users[1..]| ==> users[1..][k] == users[k + 1];
      if RunCount(runs, users[0].id) >= 1 then [RowOf(users[0], runs)] + rest else rest
  }

  /** `row` is the grouped row of some user who has at least one run. */
  predicate IsGroupRow(users: seq<User>, runs: seq<Run>, row: Leader) {
    exists k :: 0 <= k < |users| && RunCount(runs, users[k].id) >= 1 && row == RowOf(users[k], runs)
  }

  /** No user is listed twice. */
  predicate DistinctNames(rows: seq<Leader>) {
    forall i, j :: 0 <= i < j < |rows| ==> rows[i].username != rows[j].username
  }

  /** Grouping by user gives one row per user: with unique usernames, no name
      appears on two rows. */
  lemma {:induction false} GroupsDistinct(users: seq<User>, runs: seq<Run>)
    requires UniqueUsernames(users)
    ensures DistinctNames(Groups(users, runs))
  {
    if |users| > 0 {
      var tail := users[1..];
      assert UniqueUsernames(tail) by {
        forall i, j | 0 <= i < j < |tail| ensures tail[i].username != tail[j].username {
          assert tail[i] == users[i + 1] && tail[j] == users[j + 1];
        }
      }
      GroupsDistinct(tail, runs);
      var rest := Groups(tail, runs);
      var g := Groups(users, runs);
      if RunCount(runs, users[0].id) >= 1 {
        assert g == [RowOf(users[0], runs)] + rest;
        forall j | 0 <= j < |rest| ensures rest[j].username != users[0].username {
          assert rest[j] in rest;
          var k :| 0 <= k < |tail| && RunCount(runs, tail[k].id) >= 1 && rest[j] == RowOf(tail[k], runs);
          assert tail[k] == users[k + 1];
        }
        forall i, j | 0 <= i < j < |g| ensures g[i].username != g[j].username {
          assert g[j] == rest[j - 1];
          if i > 0 {
            assert g[i] == rest[i - 1];
          }
        }
      }
    }
  }

  /** Removing one row from a list with distinct names leaves distinct names,
      none of them the removed row's. */
  lemma DistinctNamesRemove(a: seq<Leader>, k: nat)
    requires DistinctNames(a) && k < |a|
    ensures DistinctNames(a[..k] + a[k + 1..])
    ensures forall y :: y in a[..k] + a[k + 1..] ==> y.username != a[k].username
  {
    var a' := a[..k] + a[k + 1..];
    assert forall m :: 0 <= m < |a'| ==> a'[m] == (if m < k then a[m] else a[m + 1]);
    forall i, j | 0 <= i < j < |a'| ensures a'[i].username != a'[j].username {
      var i' := if i < k then i else i + 1;
      var j' := if j < k then j else j + 1;
      assert a'[i] == a[i'] && a'[j] == a[j'];
    }
    forall y | y in a' ensures y.username != a[k].username {
      var m :| 0 <= m < |a'| && a'[m] == y;
      var m' := if m < k then m else m + 1;
      assert a[m'] == y;
    }
  }

  /** Taking the same row out of two rearrangements of each other leaves two
      rearrangements of each other. */
  lemma RemoveMatchingHeads(a: seq<Leader>, b: seq<Leader>, k: nat)
    requires multiset(a) == multiset(b) && k < |a| && |b| > 0 && a[k] == b[0]
    ensures multiset(a[..k] + a[k + 1..]) == multiset(b[1..])
  {
    assert a == a[..k] + [a[k]] + a[k + 1..];
    assert multiset(a[..k] + a[k + 1..]) == multiset(a) - multiset{a[k]};
    assert b == [b[0]] + b[1..];
    assert multiset(b[1..]) == multiset(b) - multiset{b[0]};
  }

  /** Rearranging rows keeps their names distinct. */
  lemma {:induction false} DistinctNamesPermutation(a: seq<Leader>, b: seq<Leader>)
    requires multiset(a) == multiset(b) && DistinctNames(a)
    ensures DistinctNames(b)
    decreases |b|
  {
    if |b| > 0 {
      var x := b[0];
      assert x in multiset(a);
      var k :| 0 <= k < |a| && a[k] == x;
      var a' := a[..k] + a[k + 1..];
      RemoveMatchingHeads(a, b, k);
      DistinctNamesRemove(a, k);
      DistinctNamesPermutation(a', b[1..]);
      forall j | 0 < j < |b| ensures b[j].username != x.username {
        assert b[j] == b[1..][j - 1];
        assert b[j] in multiset(a');
      }
    }
  }

  predicate NonIncreasing(rows: seq<Leader>) {
    forall i, j :: 0 <= i < j < |rows| ==> rows[i].totalHr >= rows[j].totalHr
  }

  /** Inserts a row into a list ordered from highest to lowest total, ahead of
      the rows with an equal total. */
  function InsertDesc(row: Leader, sorted: seq<Leader>): (r: seq<Leader>)
    requires NonIncreasing(sorted)
    ensures NonIncreasing(r)
    ensures multiset(r) == multiset(sorted) + multiset{row}
  {
    if |sorted| == 0 then [row]
    else if row.totalHr >= sorted[0].totalHr then [row] + sorted
    else
      var rest := InsertDesc(row, sorted[1..]);
      assert sorted == [sorted[0]] + sorted[1..];
      BoundedAfterInsert(row, sorted, rest);
      [sorted[0]] + rest
  }

  /** Every row of `rest`, the tail with `row` inserted, is at most the head. */
  lemma BoundedAfterInsert(row: Leader, sorted: seq<Leader>, rest: seq<Leader>)
    requires NonIncreasing(sorted) && |sorted| > 0 && row.totalHr < sorted[0].totalHr
    requires multiset(rest) == multiset(sorted[1..]) + multiset{row}
    ensures NonIncreasing(rest) ==> NonIncreasing([sorted[0]] + rest)
  {
    forall i | 0 <= i < |rest| ensures rest[i].totalHr <= sorted[0].totalHr {
      assert rest[i] in multiset(rest);
      if rest[i] != row {
        assert rest[i] in multiset(sorted[1..]);
        var k :| 0 <= k < |sorted[1..]| && sorted[1..][k] == rest[i];
        assert sorted[k + 1] == rest[i];
      }
    }
    var r := [sorted[0]] + rest;
    forall i, j | 0 <= i < j < |r| && NonIncreasing(rest) ensures r[i].totalHr >= r[j].totalHr {
      assert r[j] == rest[j - 1];
      if i > 0 {
        assert r[i] == rest[i - 1];
      }
    }
  }

  /** ORDER BY total_hr DESC: the rows rearranged from highest to lowest total.
      Rows with equal totals keep no promised order. */
  function SortDesc(rows: seq<Leader>): (r: seq<Leader>)
    ensures NonIncreasing(r)
    ensures multiset(r) == multiset(rows)
  {
    if |rows| == 0 then []
    else
      assert rows == [rows[0]] + rows[1..];
      InsertDesc(rows[0], SortDesc(rows[1..]))
  }

  /** LIMIT: at most the first n rows. */
  function Limit(rows: seq<Leader>, n: nat): (r: seq<Leader>)
    ensures |r| <= n && |r| <= |rows| && r == rows[..|r|]
    ensures |r| < n ==> r == rows
  {
    if |rows| <= n then rows else rows[..n]
  }

  /** GET /leaderboard. At most ten rows, ordered from highest to lowest total;
      each row carries the name, total and run count of a user with at least
      one run; and a user with runs who is missing is beaten or tied by every
      listed row of a full board. */
  function Leaderboard(s: Store): (r: seq<Leader>)
    ensures |r| <= LeaderboardSize
    ensures NonIncreasing(r)
    ensures forall i :: 0 <= i < |r| ==> IsGroupRow(s.users, s.runs, r[i])
    ensures forall row :: IsGroupRow(s.users, s.runs, row) && row !in r ==>
      |r| == LeaderboardSize && forall i :: 0 <= i < |r| ==> r[i].totalHr >= row.totalHr
    ensures UniqueUsernames(s.users) ==> DistinctNames(r)
  {
    var groups := Groups(s.users, s.runs);
    var sorted := SortDesc(groups);
    LeaderboardFacts(groups, sorted);
    LeaderboardDistinct(s.users, s.runs);
    Limit(sorted, LeaderboardSize)
  }

  lemma LeaderboardDistinct(users: seq<User>, runs: seq<Run>)
    ensures UniqueUsernames(users) ==> DistinctNames(Limit(SortDesc(Groups(users, runs)), LeaderboardSize))
  {
    if UniqueUsernames(users) {
      var sorted := SortDesc(Groups(users, runs));
      GroupsDistinct(users, runs);
      DistinctNamesPermutation(Groups(users, runs), sorted);
      var r := Limit(sorted, LeaderboardSize);
      assert forall i :: 0 <= i < |r| ==> r[i] == sorted[i];
    }
  }

  lemma LeaderboardFacts(groups: seq<Leader>, sorted: seq<Leader>)
    requires NonIncreasing(sorted) && multiset(sorted) == multiset(groups)
    ensures var r := Limit(sorted, LeaderboardSize);
      && (forall i :: 0 <= i < |r| ==> r[i] in groups)
      && (forall g :: g in groups && g !in r ==>
            |r| == LeaderboardSize && forall i :: 0 <= i < |r| ==> r[i].totalHr >= g.totalHr)
  {
    var r := Limit(sorted, LeaderboardSize);
    forall i | 0 <= i < |r| ensures r[i] in groups {
      assert r[i] == sorted[i];
      assert r[i] in multiset(groups);
    }
    forall g | g in groups && g !in r
      ensures |r| == LeaderboardSize && forall i :: 0 <= i < |r| ==> r[i].totalHr >= g.totalHr
    {
      MissingRowRanksBelow(sorted, r, g, groups);
    }
  }

  /** A row of the sorted list that did not make the cut sits after every row
      that did, and the cut happened because the board was full. */
  lemma MissingRowRanksBelow(sorted: seq<Leader>, r: seq<Leader>, g: Leader, groups: seq<Leader>)
    requires NonIncreasing(sorted) && multiset(sorted) == multiset(groups)
    requires r == Limit(sorted, LeaderboardSize)
    requires g in groups && g !in r
    ensures |r| == LeaderboardSize && forall i :: 0 <= i < |r| ==> r[i].totalHr >= g.totalHr
  {
    assert g in multiset(sorted);
    var j :| 0 <= j < |sorted| && sorted[j] == g;
    assert j >= |r|;
    forall i | 0 <= i < |r| ensures r[i].totalHr >= g.totalHr {
      assert r[i] == sorted[i];
    }
  }
}
