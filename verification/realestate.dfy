/** `astock_real_estate_collector.py`: the record logic of
    `AStockRealEstateDataCollector` -- trying the data sources in order,
    filling gaps with generated values, limiting the stock list, and the
    final cleaning pass that drops incomplete and repeated records and
    makes both year values non-negative numbers. */
module RealEstateCollector {
  import opened Wrappers
  import opened Seqs
  import opened Records

  // ---- search_real_estate_data ----

  /** What one data source gave for a stock: a dictionary (empty when it
      found nothing), or `None` when it raised. */
  type SourceOutcome = Option<Record>

  /** A source result that `if data:` accepts. */
  predicate Useful(o: SourceOutcome) {
    o.Some? && |o.value| > 0
  }

  /** The sources in the order tried: eastmoney, sina, cninfo. */
  const SourceOrder: seq<string> := ["eastmoney", "sina", "cninfo"]

  /** `search_real_estate_data`: start from the code, the name and two
      `None` years; merge in the first useful source result; then give each
      year still `None` a generated value.  `mock(y)` is the generated
      value, or `None` when generating it raises, which ends the filling. */
  function SearchRealEstateData(code: string, name: string, outcomes: seq<SourceOutcome>,
                                mock: Year -> Option<real>, fmt: real -> string): (r: Record)
    requires |outcomes| == |SourceOrder|
    ensures var i := FirstIndex(outcomes, Useful, 0);
            && (i < |outcomes| ==> forall k :: k in outcomes[i].value && outcomes[i].value[k] != Null ==> k in r && r[k] == outcomes[i].value[k])
            && (i == |outcomes| ==> StockCode in r && r[StockCode] == Str(code) && StockName in r && r[StockName] == Str(name))
    ensures RealEstate(Y2023) in r && RealEstate(Y2024) in r
    ensures mock(Y2023).Some? && mock(Y2024).Some? ==> r[RealEstate(Y2023)] != Null && r[RealEstate(Y2024)] != Null
  {
    var base := map[StockCode := Str(code), StockName := Str(name), RealEstate(Y2023) := Null, RealEstate(Y2024) := Null];
    var i := FirstIndex(outcomes, Useful, 0);
    var found := if i < |outcomes| then base + outcomes[i].value else base;
    FillMock(found, mock, fmt)
  }

  /** The generated values for the years still `None`, 2023 first.  The
      filling sits inside the method's `try`, so a raising 2023 generation
      leaves both years as they were, and a raising 2024 one leaves 2024
      `None`. */
  function FillMock(r: Record, mock: Year -> Option<real>, fmt: real -> string): (out: Record)
    requires RealEstate(Y2023) in r && RealEstate(Y2024) in r
    ensures out.Keys == r.Keys
    ensures forall k :: k in r && r[k] != Null ==> out[k] == r[k]
    ensures forall k :: k in r && !k.RealEstate? ==> out[k] == r[k]
    ensures mock(Y2023).Some? && mock(Y2024).Some? ==> out[RealEstate(Y2023)] != Null && out[RealEstate(Y2024)] != Null
    ensures r[RealEstate(Y2023)] == Null && mock(Y2023).Some? ==>
              out[RealEstate(Y2023)] == Num(mock(Y2023).value, fmt(mock(Y2023).value))
    ensures (r[RealEstate(Y2023)] != Null || mock(Y2023).Some?) && r[RealEstate(Y2024)] == Null ==>
              out[RealEstate(Y2024)] == (if mock(Y2024).Some? then Num(mock(Y2024).value, fmt(mock(Y2024).value)) else Null)
    ensures r[RealEstate(Y2023)] == Null && mock(Y2023).None? ==> out == r
  {
    if r[RealEstate(Y2023)] == Null && mock(Y2023).None? then r
    else
      var r1 := if r[RealEstate(Y2023)] == Null then r[RealEstate(Y2023) := Num(mock(Y2023).value, fmt(mock(Y2023).value))] else r;
      if r1[RealEstate(Y2024)] == Null then
        match mock(Y2024)
        case None => r1
        case Some(v) => r1[RealEstate(Y2024) := Num(v, fmt(v))]
      else r1
  }

  // ---- run ----

  /** `stock_list[:max_stocks]` when `max_stocks > 0`, else the whole list. */
  function LimitStocks<T>(xs: seq<T>, maxStocks: int): (r: seq<T>)
    ensures |r| == if 0 < maxStocks < |xs| then maxStocks else |xs|
    ensures r == xs[..|r|]
  {
    if 0 < maxStocks < |xs| then xs[..maxStocks] else xs
  }

  // ---- clean_and_validate_data ----

  /** A record with a truthy code and a truthy name. */
  predicate Eligible(item: Record) {
    Truthy(Get(item, StockCode)) && Truthy(Get(item, StockName))
  }

  /** One year value cleaned: a falsy value becomes 0, a truthy one is
      converted with `float()` (`None` when that raises) and a negative
      result becomes 0. */
  function CleanYearValue(v: Cell, parse: string -> Option<real>, fmt: real -> string): (r: Option<Cell>)
    ensures r.Some? ==> r.value.Num? && r.value.x >= 0.0
    ensures r.Some? && r.value.x > 0.0 ==> ToFloat(v, parse) == Some(r.value.x)
    ensures !Truthy(v) ==> r == Some(Num(0.0, "0"))
  {
    if !Truthy(v) then Some(Num(0.0, "0"))
    else match ToFloat(v, parse)
      case None => None
      case Some(x) => if x < 0.0 then Some(Num(0.0, "0")) else Some(Num(x, fmt(x)))
  }

  /** Both year values are present, numeric and non-negative. */
  predicate YearsClean(r: Record) {
    && RealEstate(Y2023) in r && r[RealEstate(Y2023)].Num? && r[RealEstate(Y2023)].x >= 0.0
    && RealEstate(Y2024) in r && r[RealEstate(Y2024)].Num? && r[RealEstate(Y2024)].x >= 0.0
  }

  /** Both year values of an item cleaned, or `None` when a conversion raises. */
  function CleanItem(item: Record, parse: string -> Option<real>, fmt: real -> string): (r: Option<Record>)
    ensures r.Some? ==> r.value.Keys == item.Keys + {RealEstate(Y2023), RealEstate(Y2024)}
    ensures r.Some? ==> forall k :: k in item && !k.RealEstate? ==> r.value[k] == item[k]
    ensures r.Some? ==> YearsClean(r.value)
  {
    match CleanYearValue(Get(item, RealEstate(Y2023)), parse, fmt)
    case None => None
    case Some(a) =>
      match CleanYearValue(Get(item, RealEstate(Y2024)), parse, fmt)
      case None => None
      case Some(b) =>
        Some(item[RealEstate(Y2023) := a][RealEstate(Y2024) := b])
  }

  /** The cleaning loop from `xs[0]` on, with the codes seen so far.  A code
      is marked seen before the values are converted, so an item whose
      conversion raises still shadows later items with its code. */
  function CleanFrom(seen: set<Cell>, xs: seq<Record>, parse: string -> Option<real>, fmt: real -> string): (r: seq<Record>)
    ensures |r| <= |xs|
    ensures forall i :: 0 <= i < |r| ==> Eligible(r[i]) && Get(r[i], StockCode) !in seen
    ensures forall i, j :: 0 <= i < j < |r| ==> Get(r[i], StockCode) != Get(r[j], StockCode)
    ensures forall i :: 0 <= i < |r| ==> YearsClean(r[i])
    decreases |xs|
  {
    if |xs| == 0 then []
    else
      var x := xs[0];
      var code := Get(x, StockCode);
      if !Eligible(x) || code in seen then CleanFrom(seen, xs[1..], parse, fmt)
      else
        var rest := CleanFrom(seen + {code}, xs[1..], parse, fmt);
        match CleanItem(x, parse, fmt)
        case None => rest
        case Some(y) =>
          assert Get(y, StockCode) == code;
          [y] + rest
  }

  /** `clean_and_validate_data` */
  function CleanAndValidateData(data: seq<Record>, parse: string -> Option<real>, fmt: real -> string): (r: seq<Record>)
    ensures |r| <= |data|
    ensures forall i :: 0 <= i < |r| ==> Eligible(r[i])
    ensures forall i, j :: 0 <= i < j < |r| ==> Get(r[i], StockCode) != Get(r[j], StockCode)
    ensures forall i :: 0 <= i < |r| ==> YearsClean(r[i])
  {
    CleanFrom({}, data, parse, fmt)
  }

  /** `data[i]` is the first eligible item with its code. */
  predicate FirstOfCode(xs: seq<Record>, i: nat)
    requires i < |xs|
  {
    Eligible(xs[i]) && forall j :: 0 <= j < i ==> !(Eligible(xs[j]) && Get(xs[j], StockCode) == Get(xs[i], StockCode))
  }

  /** The cleaning pass keeps exactly the cleaned forms of the first
      eligible item of each code whose values convert: a later item with
      the same code never stands in for one that failed to convert. */
  lemma {:induction false} CleanFromKeeps(seen: set<Cell>, xs: seq<Record>, parse: string -> Option<real>, fmt: real -> string, y: Record)
    ensures y in CleanFrom(seen, xs, parse, fmt) <==>
              exists i :: 0 <= i < |xs| && FirstOfCode(xs, i) && Get(xs[i], StockCode) !in seen && CleanItem(xs[i], parse, fmt) == Some(y)
    decreases |xs|
  {
    if |xs| > 0 {
      var x := xs[0];
      var code := Get(x, StockCode);
      var seen' := if !Eligible(x) || code in seen then seen else seen + {code};
      CleanFromKeeps(seen', xs[1..], parse, fmt, y);
      var tail := xs[1..];
      assert forall i :: 1 <= i < |xs| ==> xs[i] == tail[i - 1];
      // an index of the tail is first of its code in `xs` exactly when it
      // is first in the tail and does not share the head's (eligible) code
      forall i | 0 <= i < |tail|
        ensures FirstOfCode(xs, i + 1) && Get(xs[i + 1], StockCode) !in seen <==>
                FirstOfCode(tail, i) && Get(tail[i], StockCode) !in seen'
      {
        if FirstOfCode(tail, i) && Get(tail[i], StockCode) !in seen' {
          forall j | 0 <= j < i + 1
            ensures !(Eligible(xs[j]) && Get(xs[j], StockCode) == Get(xs[i + 1], StockCode))
          {
            if j > 0 {
              assert xs[j] == tail[j - 1];
            }
          }
        }
        if FirstOfCode(xs, i + 1) && Get(xs[i + 1], StockCode) !in seen {
          forall j | 0 <= j < i
            ensures !(Eligible(tail[j]) && Get(tail[j], StockCode) == Get(tail[i], StockCode))
          {
            assert tail[j] == xs[j + 1];
          }
        }
      }
      if y in CleanFrom(seen, xs, parse, fmt) && !(y in CleanFrom(seen', tail, parse, fmt)) {
        assert FirstOfCode(xs, 0);
      }
      if exists i :: 0 <= i < |xs| && FirstOfCode(xs, i) && Get(xs[i], StockCode) !in seen && CleanItem(xs[i], parse, fmt) == Some(y) {
        var i :| 0 <= i < |xs| && FirstOfCode(xs, i) && Get(xs[i], StockCode) !in seen && CleanItem(xs[i], parse, fmt) == Some(y);
        if i > 0 {
          assert FirstOfCode(tail, i - 1) && Get(tail[i - 1], StockCode) !in seen';
        }
      }
    }
  }
}
