/** Worked examples: one player's session and a two-player leaderboard. */
module Scenarios {
  import opened Scoring
  import opened Tables
  import opened Auth
  import opened Logging
  import opened Reports
  import opened Leaderboard

  /** A password check that accepts exactly "pw123" against the hash "H". */
  function Check(hash: string, password: string): bool {
    hash == "H" && password == "pw123"
  }

  /** The database right after "Baal_Slayer" registered. */
  const BaalStore: Store := Store([User(1, "Baal_Slayer", "H")], [], [])

  /** A Mephisto run with Jah x1 and El x5, and one with Ber x2 and Zod x1. */
  const FirstRun: Submission := Submission("Mephisto", "Hell", 2, 1, [Drop("Jah", 1), Drop("El", 5)])
  const SecondRun: Submission := Submission("Mephisto", "Hell", 0, 0, [Drop("Ber", 2), Drop("Zod", 1)])

  /** Registering "Baal_Slayer" in an empty database creates user 1, and
      logging in with the right password puts user 1 in the session. */
  lemma BaalSlayerRegistersAndLogsIn()
    ensures Register(EmptyStore, "Baal_Slayer", "pw123", "H") == (BaalStore, RedirectToLogin)
    ensures Login(None, BaalStore, "Baal_Slayer", "pw123", Check) == (Some(1), RedirectToDashboard)
  {
    assert UserIds(EmptyStore.users) == [];
    assert NextId([]) == 1;
    assert !UsernameTaken(EmptyStore.users, "Baal_Slayer");
    assert EmptyStore.users + [User(1, "Baal_Slayer", "H")] == BaalStore.users;
    assert FindUser(BaalStore.users, "Baal_Slayer") == Some(0);
  }

  /** Jah x1 and El x5 score 1: only the Jah counts. Ber x2 and Zod x1 score 3. */
  lemma ScenarioScores()
    ensures Score(FirstRun.drops) == 1
    ensures Score(SecondRun.drops) == 3
  {
    assert Runes.IsHigh("Jah") && !Runes.IsHigh("El");
    assert Runes.IsHigh("Ber") && Runes.IsHigh("Zod");
    assert FirstRun.drops[1..][1..] == [];
    assert SecondRun.drops[1..][1..] == [];
  }

  /** Logged in as user 1, the first run is saved with 1 high rune and the
      dashboard queries compute (1 run, 1); the second is saved with 3 and they
      compute (2 runs, 4). */
  lemma BaalSlayerSession()
    ensures HandleLogRun(BaalStore, Some(1), FirstRun, 100).1 == Saved(1)
    ensures Dashboard(HandleLogRun(BaalStore, Some(1), FirstRun, 100).0, 1) == Totals(1, 1)
    ensures HandleLogRun(HandleLogRun(BaalStore, Some(1), FirstRun, 100).0, Some(1), SecondRun, 200).1 == Saved(3)
    ensures Dashboard(HandleLogRun(HandleLogRun(BaalStore, Some(1), FirstRun, 100).0, Some(1), SecondRun, 200).0, 1)
      == Totals(2, 4)
  {
    ScenarioScores();
    assert Dashboard(BaalStore, 1) == Totals(0, 0);
    DashboardAfterLogRun(BaalStore, 1, FirstRun, 100, 1);
    var s2 := LogRun(BaalStore, 1, FirstRun, 100).0;
    DashboardAfterLogRun(s2, 1, SecondRun, 200, 1);
  }

  /** Of two users with totals 10 and 25, the one with 25 heads the board. */
  lemma HigherTotalFirst()
    ensures var s := Store([User(1, "a", "x"), User(2, "b", "y")],
                           [Run(1, 1, "Pit", "Hell", 0, 0, 10, 0, 0), Run(2, 2, "Pit", "Hell", 0, 0, 25, 0, 0)],
                           []);
      Leaderboard.Leaderboard(s) == [Leader("b", 25, 1), Leader("a", 10, 1)]
  {
    var s := Store([User(1, "a", "x"), User(2, "b", "y")],
                   [Run(1, 1, "Pit", "Hell", 0, 0, 10, 0, 0), Run(2, 2, "Pit", "Hell", 0, 0, 25, 0, 0)],
                   []);
    assert s.runs[..1][..0] == [];
    assert RunCount(s.runs, 1) == 1 && HrTotal(s.runs, 1) == 10;
    assert RunCount(s.runs, 2) == 1 && HrTotal(s.runs, 2) == 25;
    assert s.users[1..][1..] == [];
    assert Groups(s.users, s.runs) == [Leader("a", 10, 1), Leader("b", 25, 1)];
  }
}
