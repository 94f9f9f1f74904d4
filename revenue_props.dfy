/**
 * What the revenue summary promises: one row per priced game present in the
 * sales, units that are that game's sum, non-increasing units, and the
 * derived price and revenue figures; and the group sums together account
 * for every unit of the sales table.
 */
module RevenueProperties {

  import opened Frames
  import opened Seqs
  import opened Revenue

  /** Every group sum belongs to a game of the table and carries that game's sum. */
  lemma TotalsAreGroupSums(t: Table)
    requires SalesReady(t)
    ensures forall x :: x in Totals(t) ==>
              x.units == Units(t, |t.rows|, x.game) &&
              exists i :: 0 <= i < |t.rows| && Get(t, i, GAME) == x.game
  {
    var keys := GameKeys(t, |t.rows|);
    forall x | x in Totals(t)
      ensures x.units == Units(t, |t.rows|, x.game)
      ensures exists i :: 0 <= i < |t.rows| && Get(t, i, GAME) == x.game
    {
      var j :| 0 <= j < |keys| && Totals(t)[j] == x;
      assert keys[j] in keys;
    }
  }

  /** The summary rows are the summary records of the priced groups, position by position. */
  lemma SummaryOfPricedGroups(t: Table)
    requires SalesReady(t)
    ensures var p := Filter(LifetimeUnits(t), Priced);
            var s := RevenueSummary(t);
            |s| == |p| &&
            forall k :: 0 <= k < |s| ==>
              p[k] in Totals(t) && Priced(p[k]) && s[k] == SummaryOf(p[k]) &&
              s[k].game == p[k].game && s[k].estimatedUnits == p[k].units
  {
    var p := Filter(LifetimeUnits(t), Priced);
    forall k | 0 <= k < |p|
      ensures p[k] in Totals(t) && Priced(p[k])
    {
      assert p[k] in p;
      assert p[k] in multiset(LifetimeUnits(t));
    }
  }

  /** Each game appears at most once in the summary. */
  lemma SummaryGamesDistinct(t: Table)
    requires SalesReady(t)
    ensures forall k, l :: 0 <= k < l < |RevenueSummary(t)| ==> RevenueSummary(t)[k].game != RevenueSummary(t)[l].game
  {
    var keys := GameKeys(t, |t.rows|);
    assert DistinctBy(Totals(t), GameOf) by {
      assert forall k :: 0 <= k < |keys| ==> GameOf(Totals(t)[k]) == keys[k];
    }
    PermutationKeepsDistinctBy(Totals(t), LifetimeUnits(t), GameOf);
    FilterKeepsDistinctBy(LifetimeUnits(t), Priced, GameOf);
    SummaryOfPricedGroups(t);
  }

  /** A game present in the sales table and named by the price list has a summary row. */
  lemma SummaryHasEveryPricedGame(t: Table, g: Value)
    requires SalesReady(t)
    requires (exists i :: 0 <= i < |t.rows| && Get(t, i, GAME) == g) && g.Text? && g.s in STEAM_PRICES_GBP
    ensures exists k :: 0 <= k < |RevenueSummary(t)| && RevenueSummary(t)[k].game == g
  {
    var keys := GameKeys(t, |t.rows|);
    var p := Filter(LifetimeUnits(t), Priced);
    assert g in keys;
    var j :| 0 <= j < |keys| && keys[j] == g;
    var x := Totals(t)[j];
    assert x in multiset(Totals(t));
    assert x in LifetimeUnits(t);
    assert x in p;
    var k :| 0 <= k < |p| && p[k] == x;
    SummaryOfPricedGroups(t);
    assert RevenueSummary(t)[k].game == g;
  }

  /**
   * A game has a summary row exactly when it occurs in the sales table and
   * the price list names it; the row's price is the listed one.
   */
  lemma SummaryGamesExactly(t: Table)
    requires SalesReady(t)
    ensures forall g :: (exists k :: 0 <= k < |RevenueSummary(t)| && RevenueSummary(t)[k].game == g) <==>
                        (exists i :: 0 <= i < |t.rows| && Get(t, i, GAME) == g) && g.Text? && g.s in STEAM_PRICES_GBP
    ensures forall k :: 0 <= k < |RevenueSummary(t)| ==>
              var r := RevenueSummary(t)[k];
              r.game.Text? && r.game.s in STEAM_PRICES_GBP && r.priceGbp == STEAM_PRICES_GBP[r.game.s]
  {
    SummaryOfPricedGroups(t);
    TotalsAreGroupSums(t);
    forall g | (exists i :: 0 <= i < |t.rows| && Get(t, i, GAME) == g) && g.Text? && g.s in STEAM_PRICES_GBP
      ensures exists k :: 0 <= k < |RevenueSummary(t)| && RevenueSummary(t)[k].game == g
    {
      SummaryHasEveryPricedGame(t, g);
    }
  }

  /** Each summary row's units are the `est_sales_x30` sum over that game's sales rows. */
  lemma SummaryUnitsAreSums(t: Table)
    requires SalesReady(t)
    ensures forall k :: 0 <= k < |RevenueSummary(t)| ==>
              RevenueSummary(t)[k].estimatedUnits == Units(t, |t.rows|, RevenueSummary(t)[k].game)
  {
    SummaryOfPricedGroups(t);
    TotalsAreGroupSums(t);
  }

  /** The summary is in non-increasing order of units; dropping the unpriced games keeps the sorted order. */
  lemma SummarySortedByUnits(t: Table)
    requires SalesReady(t)
    ensures forall k, l :: 0 <= k < l < |RevenueSummary(t)| ==>
              RevenueSummary(t)[k].estimatedUnits >= RevenueSummary(t)[l].estimatedUnits
  {
    FilterKeepsSortedDesc(LifetimeUnits(t), Priced, UnitsOf);
    SummaryOfPricedGroups(t);
  }

  /**
   * The derived figures of a row: realised price at the realisation rate,
   * revenue at the realised price, and the two scaled figures.
   */
  predicate FiguresAgree(r: SummaryRow) {
    r.realisedPriceGbp == r.priceGbp * REALISATION_RATE &&
    r.revenueGbp == r.estimatedUnits * r.realisedPriceGbp &&
    r.revenueMGbp * 1000000.0 == r.revenueGbp &&
    r.unitsK * 1000.0 == r.estimatedUnits
  }

  lemma FiguresOf(g: GameTotal)
    ensures FiguresAgree(SummaryOf(g))
  {
  }

  /** The derived figures of every summary row agree. */
  lemma SummaryFigures(t: Table)
    requires SalesReady(t)
    ensures forall k :: 0 <= k < |RevenueSummary(t)| ==> FiguresAgree(RevenueSummary(t)[k])
  {
    SummaryOfPricedGroups(t);
    var p := Filter(LifetimeUnits(t), Priced);
    forall k | 0 <= k < |p| {
      FiguresOf(p[k]);
    }
  }

  /** A game absent from the first `n` rows has sold nothing there. */
  lemma {:induction false} UnitsOfAbsentGame(t: Table, n: nat, g: Value)
    requires SalesReady(t) && n <= |t.rows| && g != Missing && g !in GameKeys(t, n)
    ensures Units(t, n, g) == 0.0
  {
    if n > 0 {
      UnitsOfAbsentGame(t, n - 1, g);
    }
  }

  /** Row `n - 1` adds its count to exactly the one game it belongs to. */
  lemma {:induction false} UnitsOverStep(t: Table, n: nat, gs: seq<Value>)
    requires SalesReady(t) && 0 < n <= |t.rows| && Distinct(gs)
    ensures UnitsOver(t, n, gs) ==
              UnitsOver(t, n - 1, gs) + (if Get(t, n - 1, GAME) in gs then Get(t, n - 1, EST_SALES).x else 0.0)
  {
    if gs != [] {
      var m := |gs| - 1;
      UnitsOverStep(t, n, gs[..m]);
      assert gs[m] !in gs[..m];
      assert forall g :: g in gs <==> g in gs[..m] || g == gs[m];
    }
  }

  /** Adding a game to the list adds its sum. */
  lemma UnitsOverAppend(t: Table, n: nat, gs: seq<Value>, g: Value)
    requires SalesReady(t) && n <= |t.rows|
    ensures UnitsOver(t, n, gs + [g]) == UnitsOver(t, n, gs) + Units(t, n, g)
  {
    assert (gs + [g])[..|gs|] == gs;
  }

  /** A row of a game already seen adds its count to that game's sum only. */
  lemma ConservedStepSeen(t: Table, n: nat)
    requires SalesReady(t) && 0 < n <= |t.rows|
    requires Get(t, n - 1, GAME) in GameKeys(t, n - 1)
    requires UnitsOver(t, n - 1, GameKeys(t, n - 1)) + Units(t, n - 1, Missing) == TotalUnits(t, n - 1)
    ensures UnitsOver(t, n, GameKeys(t, n)) + Units(t, n, Missing) == TotalUnits(t, n)
  {
    UnitsOverStep(t, n, GameKeys(t, n - 1));
  }

  /** A row of a new game opens that game's sum with its count. */
  lemma ConservedStepNew(t: Table, n: nat)
    requires SalesReady(t) && 0 < n <= |t.rows|
    requires Get(t, n - 1, GAME) != Missing && Get(t, n - 1, GAME) !in GameKeys(t, n - 1)
    requires UnitsOver(t, n - 1, GameKeys(t, n - 1)) + Units(t, n - 1, Missing) == TotalUnits(t, n - 1)
    ensures UnitsOver(t, n, GameKeys(t, n)) + Units(t, n, Missing) == TotalUnits(t, n)
  {
    var keys := GameKeys(t, n - 1);
    var g := Get(t, n - 1, GAME);
    UnitsOverStep(t, n, keys);
    UnitsOfAbsentGame(t, n - 1, g);
    UnitsOverAppend(t, n, keys, g);
  }

  /** A row with a NaN game joins no group; its count goes to the NaN rows' sum. */
  lemma ConservedStepMissing(t: Table, n: nat)
    requires SalesReady(t) && 0 < n <= |t.rows|
    requires Get(t, n - 1, GAME) == Missing
    requires UnitsOver(t, n - 1, GameKeys(t, n - 1)) + Units(t, n - 1, Missing) == TotalUnits(t, n - 1)
    ensures UnitsOver(t, n, GameKeys(t, n)) + Units(t, n, Missing) == TotalUnits(t, n)
  {
    UnitsOverStep(t, n, GameKeys(t, n - 1));
  }

  /**
   * The group sums and the sum over rows with a NaN game (which `groupby`
   * drops) add up to the sum of the whole `est_sales_x30` column: no unit of
   * a named game is lost or counted twice.
   */
  lemma {:induction false} UnitsConserved(t: Table, n: nat)
    requires SalesReady(t) && n <= |t.rows|
    ensures UnitsOver(t, n, GameKeys(t, n)) + Units(t, n, Missing) == TotalUnits(t, n)
  {
    if n > 0 {
      UnitsConserved(t, n - 1);
      var g := Get(t, n - 1, GAME);
      if g == Missing {
        ConservedStepMissing(t, n);
      } else if g in GameKeys(t, n - 1) {
        ConservedStepSeen(t, n);
      } else {
        ConservedStepNew(t, n);
      }
    }
  }
}
