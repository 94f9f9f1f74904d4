/**
 * The selection rules behind the charts: the peak row annotated for each
 * game on the sales chart, the single Human Fall Flat peak annotated on the
 * CCU chart, and the order of the revenue bars. Drawing the figures is not
 * part of this model.
 */
module Charts {

  import opened Results
  import opened Frames
  import opened Seqs
  import opened Revenue

  const ANNOTATED_GAME := "Human Fall Flat"

  /**
   * `idxmax` of column `c` over the rows of game `g` among the first `n`:
   * the first row holding the largest value, or None when the game has no
   * row there.
   */
  function PeakRow(t: Table, c: string, g: Value, n: nat): (r: Option<nat>)
    requires WellFormed(t) && GAME in t.columns && c in t.columns && Numeric(t, c) && n <= |t.rows|
    ensures r.None? <==> forall i :: 0 <= i < n ==> Get(t, i, GAME) != g
    ensures r.Some? ==> r.value < n && Get(t, r.value, GAME) == g
    ensures r.Some? ==> forall i :: 0 <= i < n && Get(t, i, GAME) == g ==> Get(t, i, c).x <= Get(t, r.value, c).x
    ensures r.Some? ==> forall i :: 0 <= i < r.value && Get(t, i, GAME) == g ==> Get(t, i, c).x < Get(t, r.value, c).x
  {
    if n == 0 then None
    else
      var rest := PeakRow(t, c, g, n - 1);
      if Get(t, n - 1, GAME) == g && (rest.None? || Get(t, n - 1, c).x > Get(t, rest.value, c).x)
      then Some(n - 1)
      else rest
  }

  /**
   * The annotation loop of `make_sales_chart`: for each game, the row whose
   * `est_sales_x30` peaks. `peaks[k]` belongs to the `k`-th game.
   */
  method SalesPeaks(sales: Table) returns (peaks: seq<nat>)
    requires SalesReady(sales)
    ensures var games := GameKeys(sales, |sales.rows|);
            |peaks| == |games| &&
            forall k :: 0 <= k < |games| ==>
              peaks[k] < |sales.rows| && Get(sales, peaks[k], GAME) == games[k] &&
              forall i :: 0 <= i < |sales.rows| && Get(sales, i, GAME) == games[k] ==>
                Get(sales, i, EST_SALES).x <= Get(sales, peaks[k], EST_SALES).x
  {
    var games := GameKeys(sales, |sales.rows|);
    peaks := [];
    for k := 0 to |games|
      invariant |peaks| == k
      invariant forall j :: 0 <= j < k ==>
                  peaks[j] < |sales.rows| && Get(sales, peaks[j], GAME) == games[j] &&
                  forall i :: 0 <= i < |sales.rows| && Get(sales, i, GAME) == games[j] ==>
                    Get(sales, i, EST_SALES).x <= Get(sales, peaks[j], EST_SALES).x
    {
      assert games[k] in games;
      var peak := PeakRow(sales, EST_SALES, games[k], |sales.rows|);
      peaks := peaks + [peak.value];
    }
  }

  /** A cleaned CCU table: it has a game column and a numeric `peak_ccu` column. */
  predicate CcuReady(t: Table) {
    WellFormed(t) && GAME in t.columns && PEAK_CCU in t.columns && Numeric(t, PEAK_CCU)
  }

  /** The CCU chart's annotation: the row of Human Fall Flat's peak and the peak itself. */
  datatype Annotation = Annotation(row: nat, peak: real)

  /**
   * The optional annotation of `make_ccu_chart`: present exactly when Human
   * Fall Flat has a row; then it points at a row of that game whose
   * `peak_ccu` is the game's maximum.
   */
  function CcuAnnotation(ccu: Table): (a: Option<Annotation>)
    requires CcuReady(ccu)
    ensures a.Some? <==> exists i :: 0 <= i < |ccu.rows| && Get(ccu, i, GAME) == Text(ANNOTATED_GAME)
    ensures a.Some? ==>
              a.value.row < |ccu.rows| && Get(ccu, a.value.row, GAME) == Text(ANNOTATED_GAME) &&
              Get(ccu, a.value.row, PEAK_CCU) == Num(a.value.peak) &&
              forall i :: 0 <= i < |ccu.rows| && Get(ccu, i, GAME) == Text(ANNOTATED_GAME) ==>
                Get(ccu, i, PEAK_CCU).x <= a.value.peak
  {
    match PeakRow(ccu, PEAK_CCU, Text(ANNOTATED_GAME), |ccu.rows|)
    case None => None
    case Some(i) => Some(Annotation(i, Get(ccu, i, PEAK_CCU).x))
  }

  function RevenueOf(r: SummaryRow): real { r.revenueGbp }

  /** `summary.sort_values("revenue_gbp", ascending=False)`: the bars, highest revenue first. */
  function BarOrder(summary: seq<SummaryRow>): (bars: seq<SummaryRow>)
    ensures forall k, l :: 0 <= k < l < |bars| ==> bars[k].revenueGbp >= bars[l].revenueGbp
    ensures multiset(bars) == multiset(summary)
  {
    SortDesc(summary, RevenueOf)
  }
}
