/** The tracker's three tables (users, runs, rune drops) as plain sequences in
    insertion order, with the identifiers the database assigns. */
module Tables {

  datatype Option<T> = None | Some(value: T)

  /** A registered account; `password` holds the bcrypt hash, never the password. */
  datatype User = User(id: nat, username: string, password: string)

  /** One logged farming run. `timestamp` is the clock reading at creation. */
  datatype Run = Run(
    id: nat,
    userId: nat,
    area: string,
    difficulty: string,
    uniques: int,
    sets: int,
    hrCount: int,
    sessionSec: int,
    timestamp: int
  )

  /** One rune drop of a run, referring to the run by its identifier. */
  datatype RuneDrop = RuneDrop(id: nat, runId: nat, rune: string, qty: int)

  /** The whole database. Rows are never updated or deleted, only appended. */
  datatype Store = Store(users: seq<User>, runs: seq<Run>, drops: seq<RuneDrop>)

  const EmptyStore: Store := Store([], [], [])

  /** The identifier column of a table, in row order. */
  function Ids<T>(rows: seq<T>, id: T -> nat): (ids: seq<nat>)
    ensures |ids| == |rows| && forall i :: 0 <= i < |rows| ==> ids[i] == id(rows[i])
  {
    seq(|rows|, i requires 0 <= i < |rows| => id(rows[i]))
  }

  function UserId(u: User): nat { u.id }
  function RunId(r: Run): nat { r.id }
  function DropId(d: RuneDrop): nat { d.id }

  function UserIds(users: seq<User>): seq<nat> { Ids(users, UserId) }
  function RunIds(runs: seq<Run>): seq<nat> { Ids(runs, RunId) }
  function DropIds(drops: seq<RuneDrop>): seq<nat> { Ids(drops, DropId) }

  /** The identifier the database gives the next inserted row: one more than
      the largest identifier in use, and 1 in an empty table. */
  function NextId(ids: seq<nat>): (n: nat)
    ensures n >= 1
    ensures forall i :: 0 <= i < |ids| ==> ids[i] < n
    ensures |ids| == 0 ==> n == 1
    ensures |ids| > 0 ==> n - 1 in ids
  {
    if |ids| == 0 then 1
    else
      var rest := NextId(ids[..|ids| - 1]);
      if ids[|ids| - 1] + 1 > rest then ids[|ids| - 1] + 1 else rest
  }

  predicate Ascending(ids: seq<nat>) {
    forall i, j :: 0 <= i < j < |ids| ==> ids[i] < ids[j]
  }

  /** Appending the next identifier keeps a table's identifiers ascending, so
      they stay unique and follow insertion order. */
  lemma AppendNextId(ids: seq<nat>)
    requires Ascending(ids)
    ensures Ascending(ids + [NextId(ids)])
    ensures |ids| > 0 ==> NextId(ids) == ids[|ids| - 1] + 1
  {
    if |ids| > 0 {
      var last := |ids| - 1;
      assert forall k :: 0 <= k < |ids| ==> ids[k] <= ids[last];
      var k :| 0 <= k < |ids| && ids[k] == NextId(ids) - 1;
      assert ids[k] <= ids[last];
    }
  }

  /** The unique index on usernames. */
  predicate UniqueUsernames(users: seq<User>) {
    forall i, j :: 0 <= i < j < |users| ==> users[i].username != users[j].username
  }

  predicate UsernameTaken(users: seq<User>, username: string) {
    exists i :: 0 <= i < |users| && users[i].username == username
  }

  /** Every rune drop belongs to a stored run. */
  predicate DropsHaveRuns(runs: seq<Run>, drops: seq<RuneDrop>) {
    forall i :: 0 <= i < |drops| ==>
      exists j :: 0 <= j < |runs| && runs[j].id == drops[i].runId
  }

  /** The invariant every reachable database state keeps. */
  predicate WellFormed(s: Store) {
    && Ascending(UserIds(s.users))
    && Ascending(RunIds(s.runs))
    && Ascending(DropIds(s.drops))
    && UniqueUsernames(s.users)
    && DropsHaveRuns(s.runs, s.drops)
  }

  lemma EmptyStoreWellFormed()
    ensures WellFormed(EmptyStore)
  {
  }
}
