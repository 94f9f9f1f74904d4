/**
 * `build_revenue_summary`: lifetime units per game, ordered by units
 * (largest first), priced from the fixed Steam price list, unpriced games
 * dropped, then the realised price, revenue and the two scaled columns.
 * Writing the summary to CSV is not part of this model.
 */
module Revenue {

  import opened Frames
  import opened Seqs

  /** Current Steam store prices, in pounds. */
  const STEAM_PRICES_GBP: map<string, real> := map[
    "Human Fall Flat" := 15.99,
    "Overcooked AYCE" := 29.99,
    "Overcooked 2" := 4.99,
    "Gang Beasts" := 6.39,
    "Pummel Party" := 12.79,
    "Overcooked" := 12.99,
    "Rubber Bandits" := 1.59,
    "PHOGS!" := 22.49,
    "Cake Bash" := 2.32
  ]

  /** Share of the list price taken as the realised average selling price. */
  const REALISATION_RATE: real := 0.5

  const ESTIMATED_UNITS := "estimated_units"
  const PRICE_GBP := "price_gbp"
  const REALISED_PRICE_GBP := "realised_price_gbp"
  const REVENUE_GBP := "revenue_gbp"
  const REVENUE_M_GBP := "revenue_m_gbp"
  const UNITS_K := "units_k"

  /** The columns of the summary, in the order they are created. */
  const SUMMARY_COLUMNS := [GAME, ESTIMATED_UNITS, PRICE_GBP, REALISED_PRICE_GBP, REVENUE_GBP, REVENUE_M_GBP, UNITS_K]

  /** A cleaned sales table: it has a game column and a numeric `est_sales_x30` column. */
  predicate SalesReady(t: Table) {
    WellFormed(t) && GAME in t.columns && EST_SALES in t.columns && Numeric(t, EST_SALES)
  }

  /**
   * The `groupby` keys among the first `n` rows: each game value once, in
   * order of first appearance. A NaN game forms no group, since `groupby`
   * drops missing keys.
   */
  function GameKeys(t: Table, n: nat): (keys: seq<Value>)
    requires WellFormed(t) && GAME in t.columns && n <= |t.rows|
    ensures Distinct(keys)
    ensures forall g :: g in keys <==> g != Missing && exists i :: 0 <= i < n && Get(t, i, GAME) == g
  {
    if n == 0 then []
    else
      var keys := GameKeys(t, n - 1);
      var g := Get(t, n - 1, GAME);
      if g in keys || g == Missing then keys else keys + [g]
  }

  /** The `est_sales_x30` sum of game `g` over the first `n` rows. */
  function Units(t: Table, n: nat, g: Value): real
    requires SalesReady(t) && n <= |t.rows|
  {
    if n == 0 then 0.0
    else Units(t, n - 1, g) + (if Get(t, n - 1, GAME) == g then Get(t, n - 1, EST_SALES).x else 0.0)
  }

  /** The `est_sales_x30` sum over the first `n` rows, whatever the game. */
  function TotalUnits(t: Table, n: nat): real
    requires SalesReady(t) && n <= |t.rows|
  {
    if n == 0 then 0.0 else TotalUnits(t, n - 1) + Get(t, n - 1, EST_SALES).x
  }

  /** The sum of `Units(t, n, g)` over the games `gs`. */
  function UnitsOver(t: Table, n: nat, gs: seq<Value>): real
    requires SalesReady(t) && n <= |t.rows|
  {
    if gs == [] then 0.0 else UnitsOver(t, n, gs[..|gs| - 1]) + Units(t, n, gs[|gs| - 1])
  }

  /** One entry of `groupby("game")["est_sales_x30"].sum()`. */
  datatype GameTotal = GameTotal(game: Value, units: real)

  function GameOf(g: GameTotal): Value { g.game }

  function UnitsOf(g: GameTotal): real { g.units }

  function TotalOf(t: Table): Value -> GameTotal
    requires SalesReady(t)
  {
    g => GameTotal(g, Units(t, |t.rows|, g))
  }

  /** The group sums, one per game. */
  function Totals(t: Table): seq<GameTotal>
    requires SalesReady(t)
  {
    Map(TotalOf(t), GameKeys(t, |t.rows|))
  }

  /** `lifetime_units`: the group sums sorted by units, largest first. */
  function LifetimeUnits(t: Table): (r: seq<GameTotal>)
    requires SalesReady(t)
    ensures SortedDesc(r, UnitsOf) && multiset(r) == multiset(Totals(t))
  {
    SortDesc(Totals(t), UnitsOf)
  }

  /** `d["game"].map(price_series)`: the list price, or NaN for a game the list does not name. */
  function PriceCell(g: Value): (v: Value)
    ensures v.Num? <==> g.Text? && g.s in STEAM_PRICES_GBP
    ensures v.Num? ==> v.x == STEAM_PRICES_GBP[g.s]
    ensures !v.Num? ==> v == Missing
  {
    if g.Text? && g.s in STEAM_PRICES_GBP then Num(STEAM_PRICES_GBP[g.s]) else Missing
  }

  predicate Priced(g: GameTotal) {
    PriceCell(g.game).Num?
  }

  /** The columns of the summary before the four derived ones. */
  const BASE_COLUMNS := [GAME, ESTIMATED_UNITS, PRICE_GBP]

  /** One row of the frame built from `lifetime_units` and the price lookup. */
  function BaseRow(g: GameTotal): Row {
    [g.game, Num(g.units), PriceCell(g.game)]
  }

  /** The mask `~summary["price_gbp"].isna()`, the price being at position `k`. */
  function PricedMask(k: nat): Row -> bool {
    r => !(k < |r| && r[k] == Missing)
  }

  /** One row of the summary: units, list price, realised price, revenue and the two scaled figures. */
  datatype SummaryRow = SummaryRow(
    game: Value,
    estimatedUnits: real,
    priceGbp: real,
    realisedPriceGbp: real,
    revenueGbp: real,
    revenueMGbp: real,
    unitsK: real)

  /** The summary row of a priced game. */
  function SummaryOf(g: GameTotal): SummaryRow {
    var price := if PriceCell(g.game).Num? then PriceCell(g.game).x else 0.0;
    var realised := price * REALISATION_RATE;
    var revenue := g.units * realised;
    SummaryRow(g.game, g.units, price, realised, revenue, revenue / 1000000.0, g.units / 1000.0)
  }

  /** What `build_revenue_summary` returns, as a sequence of records. */
  function RevenueSummary(t: Table): seq<SummaryRow>
    requires SalesReady(t)
  {
    Map(SummaryOf, Filter(LifetimeUnits(t), Priced))
  }

  /** The cells of one summary row, in column order. */
  function SummaryCells(r: SummaryRow): Row {
    [r.game, Num(r.estimatedUnits), Num(r.priceGbp), Num(r.realisedPriceGbp),
     Num(r.revenueGbp), Num(r.revenueMGbp), Num(r.unitsK)]
  }

  /** The summary records as a frame. */
  function SummaryTable(s: seq<SummaryRow>): Table {
    Table(SUMMARY_COLUMNS, Map(SummaryCells, s))
  }

  /** `df[c] * f`. */
  function Scaled(t: Table, c: string, f: real): (v: seq<Value>)
    requires WellFormed(t) && c in t.columns && Numeric(t, c)
    ensures |v| == |t.rows| && forall i :: 0 <= i < |t.rows| ==> v[i] == Num(Get(t, i, c).x * f)
  {
    var v := seq(|t.rows|, i requires 0 <= i < |t.rows| => Num(Get(t, i, c).x * f));
    assert forall i :: 0 <= i < |t.rows| ==> v[i] == Num(Get(t, i, c).x * f);
    v
  }

  /** `df[a] * df[b]`. */
  function Product(t: Table, a: string, b: string): (v: seq<Value>)
    requires WellFormed(t) && a in t.columns && b in t.columns && Numeric(t, a) && Numeric(t, b)
    ensures |v| == |t.rows| && forall i :: 0 <= i < |t.rows| ==> v[i] == Num(Get(t, i, a).x * Get(t, i, b).x)
  {
    var v := seq(|t.rows|, i requires 0 <= i < |t.rows| => Num(Get(t, i, a).x * Get(t, i, b).x));
    assert forall i :: 0 <= i < |t.rows| ==> v[i] == Num(Get(t, i, a).x * Get(t, i, b).x);
    v
  }

  /** `df[c] / d`. */
  function Quotient(t: Table, c: string, d: real): (v: seq<Value>)
    requires WellFormed(t) && c in t.columns && Numeric(t, c) && d != 0.0
    ensures |v| == |t.rows| && forall i :: 0 <= i < |t.rows| ==> v[i] == Num(Get(t, i, c).x / d)
  {
    seq(|t.rows|, i requires 0 <= i < |t.rows| => Num(Get(t, i, c).x / d))
  }

  /**
   * The frame of `lifetime_units` with its prices, after the unpriced games
   * are dropped: masking the rows on a missing price is dropping the
   * unpriced groups.
   */
  function PricedBase(t: Table): (p: Table)
    requires SalesReady(t)
    ensures p.columns == BASE_COLUMNS && p.rows == Map(BaseRow, Filter(LifetimeUnits(t), Priced))
  {
    var k := IndexOf(BASE_COLUMNS, PRICE_GBP);
    IndexOfUnique(BASE_COLUMNS, 2);
    FilterMap(LifetimeUnits(t), BaseRow, Priced, PricedMask(k));
    Table(BASE_COLUMNS, Filter(Map(BaseRow, LifetimeUnits(t)), PricedMask(k)))
  }

  predicate AllPriced(gs: seq<GameTotal>) {
    forall k :: 0 <= k < |gs| ==> Priced(gs[k])
  }

  function PrefixCells(n: nat): GameTotal -> Row {
    g => SummaryCells(SummaryOf(g))[..if n <= 7 then n else 7]
  }

  /** The summary frame of the games `gs` as it stands with its first `n` columns. */
  function Stage(gs: seq<GameTotal>, n: nat): (r: Table)
    requires 3 <= n <= 7
    ensures |r.columns| == n && |r.rows| == |gs|
    ensures r.columns[0] == GAME && r.columns[1] == ESTIMATED_UNITS && r.columns[2] == PRICE_GBP
    ensures n > 3 ==> r.columns[3] == REALISED_PRICE_GBP
    ensures n > 4 ==> r.columns[4] == REVENUE_GBP
    ensures n > 5 ==> r.columns[5] == REVENUE_M_GBP
  {
    Table(SUMMARY_COLUMNS[..n], Map(PrefixCells(n), gs))
  }

  /** Every stage is well formed, the label at position `j` is found there, and every cell but the game is a number. */
  lemma StageShape(gs: seq<GameTotal>, n: nat)
    requires 3 <= n <= 7
    ensures WellFormed(Stage(gs, n))
    ensures forall j :: 0 <= j < n ==> IndexOf(Stage(gs, n).columns, SUMMARY_COLUMNS[j]) == j
    ensures forall k, j :: 0 <= k < |gs| && 1 <= j < n ==> Stage(gs, n).rows[k][j].Num?
  {
    var cols := SUMMARY_COLUMNS[..n];
    assert Distinct(cols);
    forall j | 0 <= j < n
      ensures IndexOf(cols, SUMMARY_COLUMNS[j]) == j
    {
      assert cols[j] == SUMMARY_COLUMNS[j];
      IndexOfUnique(cols, j);
    }
    forall k, j | 0 <= k < |gs| && 1 <= j < n
      ensures Stage(gs, n).rows[k][j].Num?
    {
      assert Stage(gs, n).rows[k] == SummaryCells(SummaryOf(gs[k]))[..n];
    }
  }

  /** Assigning column `n` as `values` moves a stage to the next one. */
  lemma NextStage(gs: seq<GameTotal>, n: nat, values: seq<Value>)
    requires 3 <= n < 7 && |values| == |gs|
    requires forall k :: 0 <= k < |gs| ==> values[k] == SummaryCells(SummaryOf(gs[k]))[n]
    ensures WellFormed(Stage(gs, n))
    ensures WithColumn(Stage(gs, n), SUMMARY_COLUMNS[n], values) == Stage(gs, n + 1)
  {
    StageShape(gs, n);
    var t := Stage(gs, n);
    assert SUMMARY_COLUMNS[n] !in t.columns;
    var r := WithColumn(t, SUMMARY_COLUMNS[n], values);
    assert r.columns == SUMMARY_COLUMNS[..n + 1];
    forall k | 0 <= k < |gs|
      ensures r.rows[k] == Stage(gs, n + 1).rows[k]
    {
      var cells := SummaryCells(SummaryOf(gs[k]));
      assert cells[..n + 1] == cells[..n] + [cells[n]];
    }
  }

  /** `price_gbp * REALISATION_RATE` is the realised price of each record. */
  lemma RealisedColumn(gs: seq<GameTotal>)
    requires AllPriced(gs)
    ensures WellFormed(Stage(gs, 3)) && Numeric(Stage(gs, 3), PRICE_GBP)
    ensures var v := Scaled(Stage(gs, 3), PRICE_GBP, REALISATION_RATE);
            forall k :: 0 <= k < |gs| ==> v[k] == SummaryCells(SummaryOf(gs[k]))[3]
  {
    StageShape(gs, 3);
    assert SUMMARY_COLUMNS[2] == PRICE_GBP;
  }

  /** `estimated_units * realised_price_gbp` is the revenue of each record. */
  lemma RevenueColumn(gs: seq<GameTotal>)
    requires AllPriced(gs)
    ensures WellFormed(Stage(gs, 4)) && Numeric(Stage(gs, 4), ESTIMATED_UNITS) && Numeric(Stage(gs, 4), REALISED_PRICE_GBP)
    ensures var v := Product(Stage(gs, 4), ESTIMATED_UNITS, REALISED_PRICE_GBP);
            forall k :: 0 <= k < |gs| ==> v[k] == SummaryCells(SummaryOf(gs[k]))[4]
  {
    StageShape(gs, 4);
    assert SUMMARY_COLUMNS[1] == ESTIMATED_UNITS && SUMMARY_COLUMNS[3] == REALISED_PRICE_GBP;
  }

  /** `revenue_gbp / 1e6` is the revenue in millions of each record. */
  lemma RevenueMillionsColumn(gs: seq<GameTotal>)
    requires AllPriced(gs)
    ensures WellFormed(Stage(gs, 5)) && Numeric(Stage(gs, 5), REVENUE_GBP)
    ensures var v := Quotient(Stage(gs, 5), REVENUE_GBP, 1000000.0);
            forall k :: 0 <= k < |gs| ==> v[k] == SummaryCells(SummaryOf(gs[k]))[5]
  {
    StageShape(gs, 5);
    assert SUMMARY_COLUMNS[4] == REVENUE_GBP;
  }

  /** `estimated_units / 1e3` is the units in thousands of each record. */
  lemma UnitsThousandsColumn(gs: seq<GameTotal>)
    requires AllPriced(gs)
    ensures WellFormed(Stage(gs, 6)) && Numeric(Stage(gs, 6), ESTIMATED_UNITS)
    ensures var v := Quotient(Stage(gs, 6), ESTIMATED_UNITS, 1000.0);
            forall k :: 0 <= k < |gs| ==> v[k] == SummaryCells(SummaryOf(gs[k]))[6]
  {
    StageShape(gs, 6);
    assert SUMMARY_COLUMNS[1] == ESTIMATED_UNITS;
  }

  /** The base row of a priced game holds the first three cells of its summary record. */
  lemma BaseRowIsPrefix(g: GameTotal)
    requires Priced(g)
    ensures BaseRow(g) == PrefixCells(3)(g)
  {
  }

  /** Dropping the unpriced groups leaves only priced ones. */
  lemma FilterLeavesPriced(s: seq<GameTotal>)
    ensures AllPriced(Filter(s, Priced))
  {
    var gs := Filter(s, Priced);
    assert forall k :: 0 <= k < |gs| ==> gs[k] in gs;
  }

  /** The frame of priced groups is the first stage of their summary. */
  lemma PricedFrameIsFirstStage(gs: seq<GameTotal>)
    requires AllPriced(gs)
    ensures Table(BASE_COLUMNS, Map(BaseRow, gs)) == Stage(gs, 3)
  {
    forall k | 0 <= k < |gs|
      ensures BaseRow(gs[k]) == PrefixCells(3)(gs[k])
    {
      BaseRowIsPrefix(gs[k]);
    }
  }

  /** With all seven columns, the frame is the summary of its records. */
  lemma LastStageIsSummary(gs: seq<GameTotal>)
    ensures Stage(gs, 7) == SummaryTable(Map(SummaryOf, gs))
  {
    forall k | 0 <= k < |gs|
      ensures PrefixCells(7)(gs[k]) == SummaryCells(SummaryOf(gs[k]))
    {
    }
  }

  /** The four column assignments of `build_revenue_summary`, made in place on the priced frame. */
  method AddDerivedColumns(summary: Frame, ghost gs: seq<GameTotal>)
    requires AllPriced(gs) && summary.Snapshot() == Stage(gs, 3)
    modifies summary
    ensures summary.Snapshot() == SummaryTable(Map(SummaryOf, gs))
  {
    RealisedColumn(gs);
    summary.SetColumn(REALISED_PRICE_GBP, Scaled(summary.Snapshot(), PRICE_GBP, REALISATION_RATE));
    NextStage(gs, 3, Scaled(Stage(gs, 3), PRICE_GBP, REALISATION_RATE));
    RevenueColumn(gs);
    summary.SetColumn(REVENUE_GBP, Product(summary.Snapshot(), ESTIMATED_UNITS, REALISED_PRICE_GBP));
    NextStage(gs, 4, Product(Stage(gs, 4), ESTIMATED_UNITS, REALISED_PRICE_GBP));
    RevenueMillionsColumn(gs);
    summary.SetColumn(REVENUE_M_GBP, Quotient(summary.Snapshot(), REVENUE_GBP, 1000000.0));
    NextStage(gs, 5, Quotient(Stage(gs, 5), REVENUE_GBP, 1000000.0));
    UnitsThousandsColumn(gs);
    summary.SetColumn(UNITS_K, Quotient(summary.Snapshot(), ESTIMATED_UNITS, 1000.0));
    NextStage(gs, 6, Quotient(Stage(gs, 6), ESTIMATED_UNITS, 1000.0));
    LastStageIsSummary(gs);
  }

  /**
   * `build_revenue_summary`: the priced frame is built from the sorted group
   * sums, then the four derived columns are assigned into it in place.
   */
  method BuildRevenueSummary(sales: Frame) returns (summary: Frame)
    requires SalesReady(sales.Snapshot())
    ensures fresh(summary)
    ensures summary.Snapshot() == SummaryTable(RevenueSummary(sales.Snapshot()))
  {
    var t := sales.Snapshot();
    var lifetimeUnits := LifetimeUnits(t);
    var base := Table(BASE_COLUMNS, Map(BaseRow, lifetimeUnits));
    var priceAt := IndexOf(base.columns, PRICE_GBP);
    summary := new Frame(Table(base.columns, Filter(base.rows, PricedMask(priceAt))));
    ghost var gs := Filter(lifetimeUnits, Priced);
    assert summary.Snapshot() == PricedBase(t);
    FilterLeavesPriced(lifetimeUnits);
    PricedFrameIsFirstStage(gs);
    AddDerivedColumns(summary, gs);
  }
}
