/** Reference data of the farm tracker: the 33 runes in the game's order and
    the twelve runes that count as "high runes" when a run is scored. */
module Runes {

  /** The rune grid order, lowest (El) to highest (Zod). */
  const RuneOrder: seq<string> := [
    "El", "Eld", "Tir", "Nef", "Eth", "Ith", "Tal", "Ral", "Ort", "Thul",
    "Amn", "Sol", "Shael", "Dol", "Hel", "Io", "Lum", "Ko", "Fal", "Lem",
    "Pul", "Um", "Mal", "Ist", "Gul", "Vex", "Ohm", "Lo", "Sur", "Ber",
    "Jah", "Cham", "Zod"
  ]

  /** The high-rune table; every key is mapped to true. */
  const HighRunes: map<string, bool> := map[
    "Um" := true, "Mal" := true, "Ist" := true, "Gul" := true, "Vex" := true, "Ohm" := true,
    "Lo" := true, "Sur" := true, "Ber" := true, "Jah" := true, "Cham" := true, "Zod" := true
  ]

  /** Position of Um, the lowest high rune, in RuneOrder. */
  const FirstHighIndex: nat := 21

  /** A lookup in the high-rune table: a name that is not a key reads as false,
      so unknown rune names are simply not high. */
  predicate IsHigh(name: string) {
    name in HighRunes && HighRunes[name]
  }

  /** The rune order lists 33 runes, no name twice. */
  lemma RuneOrderDistinct()
    ensures |RuneOrder| == 33
    ensures Distinct(RuneOrder)
  {
  }

  /** No name occurs twice. */
  predicate Distinct(xs: seq<string>) {
    forall i, j :: 0 <= i < j < |xs| ==> xs[i] != xs[j]
  }

  /** A sequence without repeated elements has as many distinct elements as entries. */
  lemma {:induction false} DistinctCount(xs: seq<string>)
    requires Distinct(xs)
    ensures |set x | x in xs| == |xs|
  {
    if |xs| > 0 {
      var rest := xs[1..];
      DistinctCount(rest);
      assert (set x | x in xs) == (set x | x in rest) + {xs[0]};
      assert xs[0] !in rest by {
        forall k | 0 <= k < |rest| ensures rest[k] != xs[0] {
          assert rest[k] == xs[k + 1];
        }
      }
    }
  }

  /** The keys of the high-rune table, spelled out. */
  lemma HighRunesKeys()
    ensures HighRunes.Keys == set x | x in RuneOrder[FirstHighIndex..]
  {
    assert RuneOrder[FirstHighIndex..] ==
      ["Um", "Mal", "Ist", "Gul", "Vex", "Ohm", "Lo", "Sur", "Ber", "Jah", "Cham", "Zod"];
  }

  /** Every key of the high-rune table is a rune of the grid, and there are twelve. */
  lemma HighRunesAreRunes()
    ensures |HighRunes| == 12
    ensures forall name :: name in HighRunes ==> name in RuneOrder
  {
    HighRunesKeys();
    RuneOrderDistinct();
    var top := RuneOrder[FirstHighIndex..];
    assert Distinct(top) by {
      forall i, j | 0 <= i < j < |top| ensures top[i] != top[j] {
        assert top[i] == RuneOrder[FirstHighIndex + i];
        assert top[j] == RuneOrder[FirstHighIndex + j];
      }
    }
    DistinctCount(top);
    assert |HighRunes| == |HighRunes.Keys|;
    forall name | name in HighRunes ensures name in RuneOrder {
      var k :| 0 <= k < |top| && top[k] == name;
      assert RuneOrder[FirstHighIndex + k] == name;
    }
  }

  /** Every entry of the high-rune table is true, so membership alone decides IsHigh. */
  lemma HighRunesAllTrue()
    ensures forall name :: IsHigh(name) <==> name in HighRunes
  {
    forall name | name in HighRunes ensures HighRunes[name] {
    }
  }

  /** The high runes are exactly the last twelve runes of the order, Um to Zod. */
  lemma HighRunesAreTopOfOrder()
    ensures RuneOrder[FirstHighIndex] == "Um" && RuneOrder[|RuneOrder| - 1] == "Zod"
    ensures |RuneOrder| - FirstHighIndex == |HighRunes|
    ensures forall name :: IsHigh(name) <==> name in RuneOrder[FirstHighIndex..]
  {
    HighRunesKeys();
    HighRunesAreRunes();
    HighRunesAllTrue();
  }

  /** A rune of the grid is high exactly when it sits at or after Um. */
  lemma HighRuneIndex()
    ensures forall i :: 0 <= i < |RuneOrder| ==> (IsHigh(RuneOrder[i]) <==> FirstHighIndex <= i)
  {
    HighRunesAreTopOfOrder();
    RuneOrderDistinct();
    var top := RuneOrder[FirstHighIndex..];
    forall i | 0 <= i < |RuneOrder| ensures IsHigh(RuneOrder[i]) <==> FirstHighIndex <= i {
      if FirstHighIndex <= i {
        assert top[i - FirstHighIndex] == RuneOrder[i];
      }
    }
  }
}
