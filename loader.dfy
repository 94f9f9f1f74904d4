/**
 * Date derivation done while loading (`load_data`): a frame holding both a
 * `year` and a `month` column gains a `date` column, the first day of that
 * month. Reading the CSV files is not part of this model: the frames arrive
 * already read.
 */
module Loader {

  import opened Results
  import opened Frames

  const YEAR := "year"
  const MONTH := "month"
  const DATE := "date"

  /** A year or month that is not a number, where `astype(int)` raises. */
  datatype LoadError = NotANumber

  /** `astype(int)` of a float: truncation toward zero. */
  function TruncToInt(x: real): (n: int)
    ensures 0.0 <= x ==> n as real <= x < n as real + 1.0
    ensures x < 0.0 ==> n as real - 1.0 < x <= n as real
  {
    if x >= 0.0 then x.Floor else -((-x).Floor)
  }

  /** Both columns the date is built from are present. */
  predicate HasYearMonth(t: Table) {
    YEAR in t.columns && MONTH in t.columns
  }

  /** The first-of-month date of row `i`, when its year and month are numbers. */
  function DateOf(t: Table, i: nat): (d: Option<Value>)
    requires WellFormed(t) && HasYearMonth(t) && i < |t.rows|
    ensures d.Some? <==> Get(t, i, YEAR).Num? && Get(t, i, MONTH).Num?
    ensures d.Some? ==> d.value == Month(TruncToInt(Get(t, i, YEAR).x), TruncToInt(Get(t, i, MONTH).x))
  {
    match (Get(t, i, YEAR), Get(t, i, MONTH))
    case (Num(y), Num(m)) => Some(Month(TruncToInt(y), TruncToInt(m)))
    case _ => None
  }

  /** The `date` values of the first `n` rows, or None when one of them has a year or month that is not a number. */
  function DateColumn(t: Table, n: nat): (d: Option<seq<Value>>)
    requires WellFormed(t) && HasYearMonth(t) && n <= |t.rows|
    ensures d.Some? <==> forall i :: 0 <= i < n ==> DateOf(t, i).Some?
    ensures d.Some? ==> |d.value| == n && forall i :: 0 <= i < n ==> Some(d.value[i]) == DateOf(t, i)
  {
    if n == 0 then Some([])
    else
      match (DateColumn(t, n - 1), DateOf(t, n - 1))
      case (Some(ds), Some(last)) => Some(ds + [last])
      case _ => None
  }

  /** A frame after `load_data`'s date step. */
  function WithDate(t: Table): (r: Result<Table, LoadError>)
    requires WellFormed(t)
    ensures !HasYearMonth(t) ==> r == Ok(t)
    ensures HasYearMonth(t) ==>
              (r.Ok? <==> forall i :: 0 <= i < |t.rows| ==> Get(t, i, YEAR).Num? && Get(t, i, MONTH).Num?)
    ensures r.Ok? ==> WellFormed(r.value) && |r.value.rows| == |t.rows|
    ensures r.Ok? ==> forall c :: c in t.columns ==> c in r.value.columns
    ensures r.Ok? && HasYearMonth(t) ==>
              r.value.columns == (if DATE in t.columns then t.columns else t.columns + [DATE])
    ensures r.Ok? && HasYearMonth(t) ==>
              DATE in r.value.columns &&
              forall i :: 0 <= i < |t.rows| ==>
                Get(r.value, i, DATE) == Month(TruncToInt(Get(t, i, YEAR).x), TruncToInt(Get(t, i, MONTH).x))
    ensures r.Ok? ==> forall i, c :: 0 <= i < |t.rows| && c in t.columns && c != DATE ==>
                        Get(r.value, i, c) == Get(t, i, c)
  {
    if HasYearMonth(t) then
      match DateColumn(t, |t.rows|)
      case Some(ds) => Ok(WithColumn(t, DATE, ds))
      case None => Err(NotANumber)
    else Ok(t)
  }

  /** One pass of `load_data`'s loop: the date column is added to `df` in place. */
  method AddDate(df: Frame) returns (ok: bool)
    requires WellFormed(df.Snapshot())
    modifies df
    ensures ok <==> WithDate(old(df.Snapshot())).Ok?
    ensures ok ==> df.Snapshot() == WithDate(old(df.Snapshot())).value
  {
    var t := df.Snapshot();
    if HasYearMonth(t) {
      var dates := DateColumn(t, |t.rows|);
      if dates.None? {
        return false;
      }
      df.SetColumn(DATE, dates.value);
    }
    return true;
  }

  /**
   * The loop of `load_data` over the CCU and the sales frame, each changed in
   * place. The first failure stops the run, as the raised exception does.
   */
  method LoadData(ccu: Frame, sales: Frame) returns (res: Outcome<LoadError>)
    requires ccu != sales
    requires WellFormed(ccu.Snapshot()) && WellFormed(sales.Snapshot())
    modifies ccu, sales
    ensures res.Pass? <==> WithDate(old(ccu.Snapshot())).Ok? && WithDate(old(sales.Snapshot())).Ok?
    ensures res.Pass? ==> ccu.Snapshot() == WithDate(old(ccu.Snapshot())).value
    ensures res.Pass? ==> sales.Snapshot() == WithDate(old(sales.Snapshot())).value
  {
    var frames := [ccu, sales];
    for k := 0 to 2
      invariant forall j :: 0 <= j < k ==>
                  WithDate(old(frames[j].Snapshot())).Ok? &&
                  frames[j].Snapshot() == WithDate(old(frames[j].Snapshot())).value
      invariant forall j :: k <= j < 2 ==> frames[j].Snapshot() == old(frames[j].Snapshot())
    {
      var ok := AddDate(frames[k]);
      if !ok {
        return Fail(NotANumber);
      }
    }
    assert frames[0] == ccu && frames[1] == sales;
    return Pass;
  }
}
