/** The figure slots of the dashboard page. The page is a Go format string
    filled by `fmt.Sprintf`, which walks the verbs left to right and takes one
    argument per verb. A verb whose argument has the wrong type prints an error
    marker in its place, a verb with no argument left prints a "missing" marker,
    and arguments left over are appended as "extra" markers. */
module Page {
  import opened Reports

  /** The two verbs the dashboard template uses: `%d` and `%s`. */
  datatype Verb = Decimal | Str

  datatype Arg = IntArg(n: int) | StrArg(s: string)

  /** What one slot of the formatted text shows: the argument itself, or one of
      the markers `%!d(string=…)`, `%!s(MISSING)` and `%!(EXTRA …)`. */
  datatype Shown = Printed(arg: Arg) | WrongType(verb: Verb, arg: Arg) | MissingArg(verb: Verb) | ExtraArg(arg: Arg)

  /** `%d` prints an integer and `%s` a string. */
  predicate Fits(v: Verb, a: Arg) {
    (v.Decimal? && a.IntArg?) || (v.Str? && a.StrArg?)
  }

  function Slot(v: Verb, a: Arg): Shown {
    if Fits(v, a) then Printed(a) else WrongType(v, a)
  }

  /** The slots of a format string with verbs `verbs` given arguments `args`:
      the i-th verb shows the i-th argument. */
  function Render(verbs: seq<Verb>, args: seq<Arg>): (r: seq<Shown>)
    ensures |r| == (if |args| > |verbs| then |args| else |verbs|)
    ensures forall i :: 0 <= i < |verbs| && i < |args| ==> r[i] == Slot(verbs[i], args[i])
    ensures forall i :: |args| <= i < |verbs| ==> r[i] == MissingArg(verbs[i])
    ensures forall i :: |verbs| <= i < |args| ==> r[i] == ExtraArg(args[i])
  {
    if |verbs| == 0 then seq(|args|, i requires 0 <= i < |args| => ExtraArg(args[i]))
    else if |args| == 0 then seq(|verbs|, i requires 0 <= i < |verbs| => MissingArg(verbs[i]))
    else [Slot(verbs[0], args[0])] + Render(verbs[1..], args[1..])
  }

  /** Every slot shows its argument exactly when there is one argument per verb
      and each has the type its verb expects. */
  lemma RenderClean(verbs: seq<Verb>, args: seq<Arg>)
    ensures (forall k :: 0 <= k < |Render(verbs, args)| ==> Render(verbs, args)[k].Printed?) <==>
      (|verbs| == |args| && forall i :: 0 <= i < |verbs| ==> Fits(verbs[i], args[i]))
  {
    var r := Render(verbs, args);
    if |verbs| != |args| {
      // The first slot past the shorter list shows a "missing" or an "extra" marker.
      var m := if |verbs| < |args| then |verbs| else |args|;
      assert m < |r| && !r[m].Printed?;
    } else {
      assert forall i :: 0 <= i < |verbs| ==> r[i].Printed? == Fits(verbs[i], args[i]);
    }
  }

  /** The dashboard template's verbs in order: the run count and the high-rune
      total (`%d`, `%d`), then the rune grid, the difficulty heading, and the
      area and difficulty option lists (four `%s`). */
  const DashboardVerbs: seq<Verb> := [Decimal, Decimal, Str, Str, Str, Str]

  /** The arguments main.go hands the template: the two figures are left out. */
  function DashboardArgsAsWritten(grid: string, areas: string, diffs: string): seq<Arg> {
    [StrArg(grid), StrArg("HELL"), StrArg(areas), StrArg(diffs)]
  }

  /** The arguments the template's verbs call for: the figures first. */
  function DashboardArgs(t: Totals, grid: string, areas: string, diffs: string): seq<Arg> {
    [IntArg(t.totalRuns), IntArg(t.totalHr), StrArg(grid), StrArg("HELL"), StrArg(areas), StrArg(diffs)]
  }

  /** The dashboard page as main.go formats it. The figures are not arguments,
      so whatever they are, neither is shown: both `%d` slots show a string
      argument's error marker and the last two `%s` slots show "missing". */
  lemma DashboardHidesFigures(t: Totals, grid: string, areas: string, diffs: string)
    ensures var r := Render(DashboardVerbs, DashboardArgsAsWritten(grid, areas, diffs));
      && r[0] == WrongType(Decimal, StrArg(grid))
      && r[1] == WrongType(Decimal, StrArg("HELL"))
      && r[4] == MissingArg(Str) && r[5] == MissingArg(Str)
      && forall k :: 0 <= k < |r| ==> r[k] != Printed(IntArg(t.totalRuns)) && r[k] != Printed(IntArg(t.totalHr))
  {
    var r := Render(DashboardVerbs, DashboardArgsAsWritten(grid, areas, diffs));
    assert |r| == 6;
    forall k | 0 <= k < |r| ensures !r[k].Printed? || r[k].arg.StrArg? {
    }
  }

  /** The dashboard page with the figures passed first: the run count and the
      high-rune total fill the two `%d` slots, and every slot shows its own
      argument. */
  function DashboardPage(t: Totals, grid: string, areas: string, diffs: string): (r: seq<Shown>)
    ensures |r| == 6
    ensures r[0] == Printed(IntArg(t.totalRuns)) && r[1] == Printed(IntArg(t.totalHr))
    ensures r[2] == Printed(StrArg(grid)) && r[3] == Printed(StrArg("HELL"))
    ensures r[4] == Printed(StrArg(areas)) && r[5] == Printed(StrArg(diffs))
  {
    Render(DashboardVerbs, DashboardArgs(t, grid, areas, diffs))
  }

  /** The corrected page has no error, missing or extra marker. */
  lemma DashboardPageClean(t: Totals, grid: string, areas: string, diffs: string)
    ensures forall k :: 0 <= k < |DashboardPage(t, grid, areas, diffs)| ==> DashboardPage(t, grid, areas, diffs)[k].Printed?
  {
    RenderClean(DashboardVerbs, DashboardArgs(t, grid, areas, diffs));
  }
}
