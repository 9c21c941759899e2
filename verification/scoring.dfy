/** Scoring of one submitted run: its high-rune count is the total quantity of
    the submitted drops whose rune is a high rune. */
module Scoring {
  import opened Runes

  /** One entry of the submitted drop list, as decoded from the request. The
      quantity is whatever the client sent: the server does not check its sign. */
  datatype Drop = Drop(rune: string, qty: int)

  /** The high-rune drops of a submission, in submission order. */
  function HighDrops(drops: seq<Drop>): (high: seq<Drop>)
    ensures |high| <= |drops|
  {
    if |drops| == 0 then []
    else if IsHigh(drops[0].rune) then [drops[0]] + HighDrops(drops[1..])
    else HighDrops(drops[1..])
  }

  /** The total quantity of a list of drops, high or not. */
  function TotalQuantity(drops: seq<Drop>): int {
    if |drops| == 0 then 0 else drops[0].qty + TotalQuantity(drops[1..])
  }

  /** The high-rune count of a run: the total quantity of exactly those drops
      whose rune is a high rune. */
  function Score(drops: seq<Drop>): int {
    TotalQuantity(HighDrops(drops))
  }

  /** What one drop adds to the running high-rune count. */
  function Contribution(d: Drop): int {
    if IsHigh(d.rune) then d.qty else 0
  }

  lemma {:induction false} TotalQuantityAppend(a: seq<Drop>, b: seq<Drop>)
    ensures TotalQuantity(a + b) == TotalQuantity(a) + TotalQuantity(b)
  {
    if |a| > 0 {
      assert (a + b)[1..] == a[1..] + b;
      TotalQuantityAppend(a[1..], b);
    } else {
      assert a + b == b;
    }
  }

  lemma {:induction false} HighDropsAppend(a: seq<Drop>, b: seq<Drop>)
    ensures HighDrops(a + b) == HighDrops(a) + HighDrops(b)
  {
    if |a| > 0 {
      assert (a + b)[1..] == a[1..] + b;
      HighDropsAppend(a[1..], b);
    } else {
      assert a + b == b;
    }
  }

  /** The score of two drop lists submitted together is the sum of their scores. */
  lemma ScoreAppend(a: seq<Drop>, b: seq<Drop>)
    ensures Score(a + b) == Score(a) + Score(b)
  {
    HighDropsAppend(a, b);
    TotalQuantityAppend(HighDrops(a), HighDrops(b));
  }

  /** Appending one drop adds its contribution to the score. */
  lemma ScoreSnoc(a: seq<Drop>, d: Drop)
    ensures Score(a + [d]) == Score(a) + Contribution(d)
  {
    ScoreAppend(a, [d]);
    assert [d][1..] == [];
    assert HighDrops([d]) == (if IsHigh(d.rune) then [d] else []);
    assert TotalQuantity([d]) == d.qty;
  }

  /** The scoring loop of the run-logging handler: a fold that adds a drop's
      quantity exactly when its rune is a high rune. */
  method CountHighRunes(drops: seq<Drop>) returns (hr: int)
    ensures hr == Score(drops)
  {
    hr := 0;
    var i := 0;
    while i < |drops|
      invariant 0 <= i <= |drops|
      invariant hr == Score(drops[..i])
    {
      var d := drops[i];
      if IsHigh(d.rune) {
        hr := hr + d.qty;
      }
      assert drops[..i + 1] == drops[..i] + [d];
      ScoreSnoc(drops[..i], d);
      i := i + 1;
    }
    assert drops[..i] == drops;
  }

  /** An empty drop list, or one with no high rune in it, scores zero. */
  lemma {:induction false} NoHighRunesScoreZero(drops: seq<Drop>)
    requires forall k :: 0 <= k < |drops| ==> !IsHigh(drops[k].rune)
    ensures Score(drops) == 0
  {
    if |drops| > 0 {
      NoHighRunesScoreZero(drops[1..]);
    }
  }

  /** Inserting a drop of a rune that is not high (a low rune, or a name that is
      no rune at all) anywhere in the list leaves the score unchanged. */
  lemma LowDropIgnored(a: seq<Drop>, d: Drop, b: seq<Drop>)
    requires !IsHigh(d.rune)
    ensures Score(a + [d] + b) == Score(a + b)
  {
    ScoreAppend(a + [d], b);
    ScoreSnoc(a, d);
    ScoreAppend(a, b);
  }

  /** The high-rune drops are all high, and scoring only them gives the same
      count as scoring the whole submission. */
  lemma {:induction false} HighDropsOnly(drops: seq<Drop>)
    ensures forall k :: 0 <= k < |HighDrops(drops)| ==> IsHigh(HighDrops(drops)[k].rune)
    ensures Score(HighDrops(drops)) == Score(drops)
  {
    if |drops| > 0 {
      HighDropsOnly(drops[1..]);
    }
  }

  /** With non-negative quantities the count lies between zero and the total
      quantity of the submission. */
  lemma {:induction false} ScoreBounds(drops: seq<Drop>)
    requires forall k :: 0 <= k < |drops| ==> drops[k].qty >= 0
    ensures 0 <= Score(drops) <= TotalQuantity(drops)
  {
    if |drops| > 0 {
      ScoreBounds(drops[1..]);
    }
  }

  /** The server accepts negative quantities: a negative high-rune drop lowers
      the count, which can then fall below zero. */
  lemma NegativeHighDropLowersScore(a: seq<Drop>, d: Drop)
    requires IsHigh(d.rune) && d.qty < 0
    ensures Score(a + [d]) < Score(a)
  {
    ScoreSnoc(a, d);
  }

  /** The count does not depend on the order in which drops were submitted. */
  lemma {:induction false} ScorePermutation(a: seq<Drop>, b: seq<Drop>)
    requires multiset(a) == multiset(b)
    ensures Score(a) == Score(b)
    decreases |a|
  {
    if |a| > 0 {
      var d := a[0];
      assert d in multiset(b);
      var k :| 0 <= k < |b| && b[k] == d;
      var rest := b[..k] + b[k + 1..];
      assert b == b[..k] + [d] + b[k + 1..];
      assert a == [d] + a[1..];
      assert multiset(b) == multiset(b[..k]) + multiset{d} + multiset(b[k + 1..]);
      assert multiset(a) == multiset{d} + multiset(a[1..]);
      assert multiset(rest) == multiset(b[..k]) + multiset(b[k + 1..]);
      assert multiset(rest) == multiset(b) - multiset{d};
      assert multiset(a[1..]) == multiset(a) - multiset{d};
      ScorePermutation(a[1..], rest);
      ScoreAppend([d], a[1..]);
      ScoreAppend(b[..k] + [d], b[k + 1..]);
      ScoreSnoc(b[..k], d);
      ScoreAppend(b[..k], b[k + 1..]);
      assert Score([d]) == Contribution(d) by {
        ScoreSnoc([], d);
        assert [] + [d] == [d];
      }
    }
  }
}
