/**
 * `prepare_data`: harmonise the game column's label, drop the excluded game
 * from both tables, and make sure every sales row carries an
 * `est_sales_x30` count.
 */
module Cleaning {

  import opened Results
  import opened Frames
  import opened Seqs

  const GAME_CAPITALISED := "Game"
  const EXCLUDED_GAME := "Fall Guys (Paid Era)"
  /** Estimated units sold per positive review. */
  const UNITS_PER_REVIEW: real := 30.0

  datatype CleanError =
    | MissingGameColumn   // the KeyError of `df["game"]` when neither label exists
    | MissingUnitsSource  // the ValueError: neither `est_sales_x30` nor `positive_reviews`

  /** The sales count columns that exist hold numbers. */
  predicate CountsAreNumbers(t: Table)
    requires WellFormed(t)
  {
    (POSITIVE_REVIEWS in t.columns ==> Numeric(t, POSITIVE_REVIEWS)) &&
    (EST_SALES in t.columns ==> Numeric(t, EST_SALES))
  }

  function Relabel(c: string): string {
    if c == GAME_CAPITALISED then GAME else c
  }

  function RelabelAll(cols: seq<string>): (r: seq<string>)
    ensures |r| == |cols| && forall k :: 0 <= k < |cols| ==> r[k] == Relabel(cols[k])
  {
    seq(|cols|, k requires 0 <= k < |cols| => Relabel(cols[k]))
  }

  /** `rename(columns={"Game": "game"})`: the label changes where it stands, every cell stays. */
  function Rename(t: Table): (r: Table)
    requires WellFormed(t) && GAME !in t.columns && GAME_CAPITALISED in t.columns
    ensures WellFormed(r) && r.rows == t.rows
    ensures |r.columns| == |t.columns| && forall k :: 0 <= k < |t.columns| ==> r.columns[k] == Relabel(t.columns[k])
    ensures GAME in r.columns && GAME_CAPITALISED !in r.columns
    ensures forall c :: c in r.columns <==> c == GAME || (c in t.columns && c != GAME_CAPITALISED)
    ensures forall i :: 0 <= i < |t.rows| ==> Get(r, i, GAME) == Get(t, i, GAME_CAPITALISED)
    ensures forall i, c :: 0 <= i < |t.rows| && c in t.columns && c != GAME_CAPITALISED ==> Get(r, i, c) == Get(t, i, c)
  {
    var r := Table(RelabelAll(t.columns), t.rows);
    assert Distinct(r.columns);
    forall c | c in t.columns
      ensures Relabel(c) in r.columns && IndexOf(r.columns, Relabel(c)) == IndexOf(t.columns, c)
    {
      var k := IndexOf(t.columns, c);
      assert r.columns[k] == Relabel(c);
      IndexOfUnique(r.columns, k);
    }
    assert Relabel(GAME_CAPITALISED) == GAME;
    r
  }

  /** The guarded rename of `prepare_data`: only when `game` is absent and `Game` present. */
  function NormaliseGameColumn(t: Table): (r: Table)
    requires WellFormed(t)
    ensures WellFormed(r) && r.rows == t.rows
    ensures GAME in t.columns || GAME_CAPITALISED !in t.columns ==> r == t
    ensures GAME in r.columns <==> GAME in t.columns || GAME_CAPITALISED in t.columns
    ensures GAME !in t.columns && GAME_CAPITALISED in t.columns ==>
              forall i :: 0 <= i < |t.rows| ==> Get(r, i, GAME) == Get(t, i, GAME_CAPITALISED)
    ensures forall c :: c in t.columns && c != GAME_CAPITALISED ==> c in r.columns
    ensures forall c :: c in r.columns && c != GAME ==> c in t.columns
    ensures forall i, c :: 0 <= i < |t.rows| && c in t.columns && c != GAME_CAPITALISED ==> Get(r, i, c) == Get(t, i, c)
  {
    if GAME !in t.columns && GAME_CAPITALISED in t.columns then Rename(t) else t
  }

  /** One entry of the mask `df["game"] != "Fall Guys (Paid Era)"`, the game being at position `k`. */
  predicate Kept(k: nat, r: Row) {
    !(k < |r| && r[k] == Text(EXCLUDED_GAME))
  }

  function KeptMask(k: nat): Row -> bool {
    r => Kept(k, r)
  }

  /** The positions of the rows the mask keeps. */
  function KeptPositions(t: Table): seq<nat>
    requires GAME in t.columns
  {
    Positions(t.rows, KeptMask(IndexOf(t.columns, GAME)))
  }

  /**
   * `df[df["game"] != "Fall Guys (Paid Era)"].copy()`: the rows at the kept
   * positions, in their order, and a position is kept exactly when its game
   * is not the excluded one.
   */
  function DropExcluded(t: Table): (r: Table)
    requires WellFormed(t) && GAME in t.columns
    ensures WellFormed(r) && r.columns == t.columns
    ensures Increasing(KeptPositions(t))
    ensures forall i :: 0 <= i < |t.rows| ==> (Get(t, i, GAME) != Text(EXCLUDED_GAME) <==> i in KeptPositions(t))
    ensures |r.rows| == |KeptPositions(t)|
    ensures forall k :: 0 <= k < |r.rows| ==> KeptPositions(t)[k] < |t.rows| && r.rows[k] == t.rows[KeptPositions(t)[k]]
    ensures forall i :: 0 <= i < |r.rows| ==> Get(r, i, GAME) != Text(EXCLUDED_GAME)
  {
    var g := IndexOf(t.columns, GAME);
    var r := Table(t.columns, Filter(t.rows, KeptMask(g)));
    FilterSelectsInOrder(t.rows, KeptMask(g));
    assert forall i :: 0 <= i < |t.rows| ==> (KeptMask(g)(t.rows[i]) <==> Get(t, i, GAME) != Text(EXCLUDED_GAME));
    r
  }

  /** `positive_reviews * 30`, row by row. */
  function UnitsFromReviews(t: Table): (units: seq<Value>)
    requires WellFormed(t) && POSITIVE_REVIEWS in t.columns && Numeric(t, POSITIVE_REVIEWS)
    ensures |units| == |t.rows|
    ensures forall i :: 0 <= i < |t.rows| ==> units[i] == Num(Get(t, i, POSITIVE_REVIEWS).x * UNITS_PER_REVIEW)
  {
    seq(|t.rows|, i requires 0 <= i < |t.rows| => Num(Get(t, i, POSITIVE_REVIEWS).x * UNITS_PER_REVIEW))
  }

  /** The `est_sales_x30` guarantee applied to the filtered sales table. */
  function EnsureUnits(t: Table): (r: Result<Table, CleanError>)
    requires WellFormed(t) && CountsAreNumbers(t)
    ensures EST_SALES in t.columns ==> r == Ok(t)
    ensures EST_SALES !in t.columns && POSITIVE_REVIEWS !in t.columns ==> r == Err(MissingUnitsSource)
    ensures EST_SALES !in t.columns && POSITIVE_REVIEWS in t.columns ==>
              r == Ok(WithColumn(t, EST_SALES, UnitsFromReviews(t)))
    ensures r.Ok? ==> WellFormed(r.value) && |r.value.rows| == |t.rows| && EST_SALES in r.value.columns
    ensures r.Ok? ==> forall c :: c in t.columns ==> c in r.value.columns
    ensures r.Ok? ==> forall i, c :: 0 <= i < |t.rows| && c in t.columns ==> Get(r.value, i, c) == Get(t, i, c)
  {
    if EST_SALES in t.columns then Ok(t)
    else if POSITIVE_REVIEWS in t.columns then Ok(WithColumn(t, EST_SALES, UnitsFromReviews(t)))
    else Err(MissingUnitsSource)
  }

  /** The table carries a game column under either label. */
  predicate HasGameLabel(t: Table) {
    GAME in t.columns || GAME_CAPITALISED in t.columns
  }

  /** The cleaned CCU table: the game label harmonised, the excluded game dropped. */
  function CleanCcu(ccu: Table): (r: Table)
    requires WellFormed(ccu) && HasGameLabel(ccu)
    ensures WellFormed(r) && GAME in r.columns && |r.rows| <= |ccu.rows|
    ensures forall i :: 0 <= i < |r.rows| ==> Get(r, i, GAME) != Text(EXCLUDED_GAME)
  {
    DropExcluded(NormaliseGameColumn(ccu))
  }

  /** The cleaned sales table: as for the CCU table, then the `est_sales_x30` guarantee. */
  function CleanSales(sales: Table): (r: Result<Table, CleanError>)
    requires WellFormed(sales) && CountsAreNumbers(sales) && HasGameLabel(sales)
    ensures r.Err? <==> EST_SALES !in sales.columns && POSITIVE_REVIEWS !in sales.columns
    ensures r.Err? ==> r.error == MissingUnitsSource
  {
    NormalisedCountsAreNumbers(sales);
    EnsureUnits(DropExcluded(NormaliseGameColumn(sales)))
  }

  /** `prepare_data` on values: the cleaned CCU table and the cleaned sales table. */
  function Clean(ccu: Table, sales: Table): (r: Result<(Table, Table), CleanError>)
    requires WellFormed(ccu) && WellFormed(sales) && CountsAreNumbers(sales)
    ensures r.Ok? <==> HasGameLabel(ccu) && HasGameLabel(sales) &&
                       (EST_SALES in sales.columns || POSITIVE_REVIEWS in sales.columns)
    ensures r.Ok? ==> r.value.0 == CleanCcu(ccu) && CleanSales(sales) == Ok(r.value.1)
  {
    if !HasGameLabel(ccu) || !HasGameLabel(sales) then Err(MissingGameColumn)
    else
      match CleanSales(sales)
      case Ok(s) => Ok((CleanCcu(ccu), s))
      case Err(e) => Err(e)
  }

  /** Renaming and filtering keep the count columns numeric. */
  lemma NormalisedCountsAreNumbers(sales: Table)
    requires WellFormed(sales) && CountsAreNumbers(sales)
    ensures CountsAreNumbers(NormaliseGameColumn(sales))
    ensures GAME in NormaliseGameColumn(sales).columns ==> CountsAreNumbers(DropExcluded(NormaliseGameColumn(sales)))
  {
    var s := NormaliseGameColumn(sales);
    assert POSITIVE_REVIEWS in s.columns ==> POSITIVE_REVIEWS in sales.columns;
    assert EST_SALES in s.columns ==> EST_SALES in sales.columns;
    if GAME in s.columns {
      var d := DropExcluded(s);
      var pos := KeptPositions(s);
      forall k, c | 0 <= k < |d.rows| && c in d.columns
        ensures Get(d, k, c) == Get(s, pos[k], c)
      {
      }
    }
  }

  /** The two errors of `prepare_data`, and exactly when each is raised. */
  lemma CleanFailsExactly(ccu: Table, sales: Table)
    requires WellFormed(ccu) && WellFormed(sales) && CountsAreNumbers(sales)
    ensures Clean(ccu, sales) == Err(MissingGameColumn) <==> !HasGameLabel(ccu) || !HasGameLabel(sales)
    ensures Clean(ccu, sales) == Err(MissingUnitsSource) <==>
              HasGameLabel(ccu) && HasGameLabel(sales) &&
              EST_SALES !in sales.columns && POSITIVE_REVIEWS !in sales.columns
  {
    if HasGameLabel(sales) {
      var n := NormaliseGameColumn(sales);
      assert EST_SALES in n.columns <==> EST_SALES in sales.columns;
      assert POSITIVE_REVIEWS in n.columns <==> POSITIVE_REVIEWS in sales.columns;
    }
  }

  /**
   * Cleaning keeps every CCU row of another game, unchanged and in its
   * original order, and nothing else; only the game column's label may change.
   */
  lemma CleanCcuKeepsRowsInOrder(ccu: Table)
    requires WellFormed(ccu) && HasGameLabel(ccu)
    ensures var n := NormaliseGameColumn(ccu);
            var pos := KeptPositions(n);
            var r := CleanCcu(ccu);
            WellFormed(r) && r.columns == n.columns && GAME in r.columns &&
            (forall i :: 0 <= i < |r.rows| ==> Get(r, i, GAME) != Text(EXCLUDED_GAME)) &&
            Increasing(pos) &&
            (forall i :: 0 <= i < |ccu.rows| ==> (Get(n, i, GAME) != Text(EXCLUDED_GAME) <==> i in pos)) &&
            |r.rows| == |pos| &&
            forall k :: 0 <= k < |pos| ==> pos[k] < |ccu.rows| && r.rows[k] == ccu.rows[pos[k]]
  {
  }

  /** After cleaning, no sales row is of the excluded game, and every one holds a number under `est_sales_x30`. */
  lemma CleanSalesGuaranteesUnits(sales: Table)
    requires WellFormed(sales) && CountsAreNumbers(sales) && HasGameLabel(sales)
    requires CleanSales(sales).Ok?
    ensures var s := CleanSales(sales).value;
            WellFormed(s) && GAME in s.columns && EST_SALES in s.columns && Numeric(s, EST_SALES) &&
            forall i :: 0 <= i < |s.rows| ==> Get(s, i, GAME) != Text(EXCLUDED_GAME)
  {
    NormalisedCountsAreNumbers(sales);
    var kept := DropExcluded(NormaliseGameColumn(sales));
    var s := CleanSales(sales).value;
    assert EnsureUnits(kept) == Ok(s);
    assert forall i :: 0 <= i < |s.rows| ==> Get(s, i, GAME) == Get(kept, i, GAME);
  }

  /**
   * Without an `est_sales_x30` column, the sales table must have had
   * `positive_reviews`, and every cleaned row gets thirty units per positive
   * review.
   */
  lemma CleanSalesDerivesUnits(sales: Table)
    requires WellFormed(sales) && CountsAreNumbers(sales) && HasGameLabel(sales)
    requires CleanSales(sales).Ok? && EST_SALES !in sales.columns
    ensures POSITIVE_REVIEWS in sales.columns
    ensures var s := CleanSales(sales).value;
            WellFormed(s) && EST_SALES in s.columns && POSITIVE_REVIEWS in s.columns &&
            forall i :: 0 <= i < |s.rows| ==>
              Get(s, i, POSITIVE_REVIEWS).Num? &&
              Get(s, i, EST_SALES) == Num(Get(s, i, POSITIVE_REVIEWS).x * UNITS_PER_REVIEW)
  {
    NormalisedCountsAreNumbers(sales);
    var n := NormaliseGameColumn(sales);
    var kept := DropExcluded(n);
    assert EST_SALES !in n.columns;
    assert CleanSales(sales) == Ok(WithColumn(kept, EST_SALES, UnitsFromReviews(kept)));
  }

  /**
   * Cleaning keeps every sales row of another game, in its original order,
   * with every cell it had; the only possible addition is `est_sales_x30`.
   */
  lemma CleanSalesKeepsRowsInOrder(sales: Table)
    requires WellFormed(sales) && CountsAreNumbers(sales) && HasGameLabel(sales)
    requires CleanSales(sales).Ok?
    ensures var n := NormaliseGameColumn(sales);
            var pos := KeptPositions(n);
            var out := CleanSales(sales).value;
            WellFormed(out) && Increasing(pos) &&
            (forall i :: 0 <= i < |sales.rows| ==> (Get(n, i, GAME) != Text(EXCLUDED_GAME) <==> i in pos)) &&
            |out.rows| == |pos| &&
            (forall c :: c in n.columns ==> c in out.columns) &&
            (forall c :: c in out.columns ==> c in n.columns || c == EST_SALES) &&
            forall k, c :: 0 <= k < |pos| && c in n.columns ==> pos[k] < |sales.rows| && Get(out, k, c) == Get(n, pos[k], c)
  {
    NormalisedCountsAreNumbers(sales);
    var n := NormaliseGameColumn(sales);
    var kept := DropExcluded(n);
    var out := CleanSales(sales).value;
    assert EnsureUnits(kept) == Ok(out);
    forall k, c | 0 <= k < |kept.rows| && c in n.columns
      ensures Get(out, k, c) == Get(n, KeptPositions(n)[k], c)
    {
      assert Get(out, k, c) == Get(kept, k, c);
    }
  }

  /** The `est_sales_x30` guarantee on a frame: the derived column is assigned in place. */
  method EnsureUnitsInPlace(df: Frame) returns (ok: bool)
    requires WellFormed(df.Snapshot()) && CountsAreNumbers(df.Snapshot())
    modifies df
    ensures ok <==> EnsureUnits(old(df.Snapshot())).Ok?
    ensures ok ==> df.Snapshot() == EnsureUnits(old(df.Snapshot())).value
  {
    if EST_SALES !in df.columns {
      if POSITIVE_REVIEWS in df.columns {
        df.SetColumn(EST_SALES, UnitsFromReviews(df.Snapshot()));
      } else {
        return false;
      }
    }
    return true;
  }

  /**
   * `prepare_data` on frames. The input frames are left as they are (rename
   * and the boolean filter copy); the derived `est_sales_x30` column is
   * assigned into the filtered copy in place.
   */
  method PrepareData(ccu: Frame, sales: Frame) returns (res: Result<(Frame, Frame), CleanError>)
    requires WellFormed(ccu.Snapshot()) && WellFormed(sales.Snapshot()) && CountsAreNumbers(sales.Snapshot())
    ensures !HasGameLabel(ccu.Snapshot()) || !HasGameLabel(sales.Snapshot()) ==> res == Err(MissingGameColumn)
    ensures HasGameLabel(ccu.Snapshot()) && HasGameLabel(sales.Snapshot()) ==>
              var expected := CleanSales(sales.Snapshot());
              (expected.Err? ==> res == Err(expected.error)) &&
              (expected.Ok? ==>
                 res.Ok? && fresh(res.value.0) && fresh(res.value.1) &&
                 res.value.0.Snapshot() == CleanCcu(ccu.Snapshot()) && res.value.1.Snapshot() == expected.value)
  {
    var c := NormaliseGameColumn(ccu.Snapshot());
    var s := NormaliseGameColumn(sales.Snapshot());
    if GAME !in c.columns || GAME !in s.columns {
      return Err(MissingGameColumn);
    }
    NormalisedCountsAreNumbers(sales.Snapshot());
    var ccuNoFg := new Frame(DropExcluded(c));
    var salesNoFg := new Frame(DropExcluded(s));
    var ok := EnsureUnitsInPlace(salesNoFg);
    if !ok {
      return Err(MissingUnitsSource);
    }
    return Ok((ccuNoFg, salesNoFg));
  }
}
