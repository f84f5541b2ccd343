/** The bookkeeping around concurrent fetching: per-source success counters
    and the success-rate filter that drops weak sources, and the way the
    per-stock results of a concurrent run are summarised and turned into
    rows.  Thread dispatch, timeouts and the clock are left out: a fetch is a
    function of the stock's code and name, and durations are given. */
module ConcurrentFetcher {
  import opened Wrappers
  import opened Seqs
  import opened Records

  // ---- SourceStats ----

  /** The counters kept for one data source. */
  datatype SourceStats = SourceStats(name: string, successCount: int, failCount: int, totalRequests: int, totalTime: real)

  /** The counters of a source that has not been tried yet. */
  function Fresh(name: string): SourceStats {
    SourceStats(name, 0, 0, 0, 0.0)
  }

  /** Every request was counted once, as a success or as a failure. */
  predicate Consistent(s: SourceStats) {
    s.successCount >= 0 && s.failCount >= 0 && s.successCount + s.failCount == s.totalRequests
  }

  /** `success_rate`: successes per request, 0 before the first request. */
  function SuccessRate(s: SourceStats): (r: real)
    ensures s.totalRequests == 0 ==> r == 0.0
    ensures s.totalRequests != 0 ==> r * s.totalRequests as real == s.successCount as real
    ensures Consistent(s) ==> 0.0 <= r <= 1.0
  {
    Ratio(s.successCount, s.totalRequests)
  }

  /** A count over a total, 0 when the total is 0. */
  function Ratio(part: int, total: int): (r: real)
    ensures total == 0 ==> r == 0.0
    ensures total != 0 ==> r * total as real == part as real
    ensures 0 <= part <= total ==> 0.0 <= r <= 1.0
  {
    if total == 0 then 0.0 else part as real / total as real
  }

  /** `avg_time`: seconds per request, 0 before the first request. */
  function AvgTime(s: SourceStats): (r: real)
    ensures s.totalRequests == 0 ==> r == 0.0
    ensures s.totalRequests != 0 ==> r * s.totalRequests as real == s.totalTime
  {
    Mean(s.totalTime, s.totalRequests)
  }

  /** A sum spread over `n` items, 0 when there are none. */
  function Mean(sum: real, n: int): (r: real)
    ensures n == 0 ==> r == 0.0
    ensures n != 0 ==> r * n as real == sum
  {
    if n == 0 then 0.0 else sum / n as real
  }

  // ---- SmartSourceSelector ----

  /** The selector: the rate below which a tried source is dropped, and the
      counters of every source seen so far. */
  datatype Selector = Selector(minSuccessRate: real, stats: map<string, SourceStats>)

  /** A source's counters, fresh ones when it was never recorded. */
  function StatsOf(sel: Selector, source: string): SourceStats {
    if source in sel.stats then sel.stats[source] else Fresh(source)
  }

  /** All counters the selector holds are consistent. */
  predicate AllConsistent(sel: Selector) {
    forall s :: s in sel.stats ==> Consistent(sel.stats[s])
  }

  /** `record_attempt`: one more request for `source`, counted as a success
      or a failure, and its duration added; no other source changes. */
  function RecordAttempt(sel: Selector, source: string, success: bool, duration: real): (r: Selector)
    ensures r.minSuccessRate == sel.minSuccessRate
    ensures r.stats.Keys == sel.stats.Keys + {source}
    ensures forall s :: s in sel.stats && s != source ==> r.stats[s] == sel.stats[s]
    ensures var before := StatsOf(sel, source);
            var after := r.stats[source];
            && after.name == before.name
            && after.totalRequests == before.totalRequests + 1
            && after.totalTime == before.totalTime + duration
            && after.successCount == before.successCount + (if success then 1 else 0)
            && after.failCount == before.failCount + (if success then 0 else 1)
    ensures AllConsistent(sel) ==> AllConsistent(r)
  {
    var s := StatsOf(sel, source);
    var t := s.(totalRequests := s.totalRequests + 1, totalTime := s.totalTime + duration);
    var u := if success then t.(successCount := t.successCount + 1) else t.(failCount := t.failCount + 1);
    Selector(sel.minSuccessRate, sel.stats[source := u])
  }

  /** One call of `record_attempt`. */
  datatype Attempt = Attempt(source: string, success: bool, duration: real)

  /** The selector after recording `attempts` in order. */
  function RecordAll(sel: Selector, attempts: seq<Attempt>): Selector {
    if |attempts| == 0 then sel
    else
      var last := attempts[|attempts| - 1];
      RecordAttempt(RecordAll(sel, attempts[..|attempts| - 1]), last.source, last.success, last.duration)
  }

  function AttemptsOn(source: string): Attempt -> bool {
    (a: Attempt) => a.source == source
  }

  function SuccessesOn(source: string): Attempt -> bool {
    (a: Attempt) => a.source == source && a.success
  }

  function FailuresOn(source: string): Attempt -> bool {
    (a: Attempt) => a.source == source && !a.success
  }

  /** After a run of attempts a source's counters are what it had plus the
      attempts made on it: its requests, successes and failures. */
  lemma {:induction false} RecordAllCounts(sel: Selector, attempts: seq<Attempt>, source: string)
    ensures var before := StatsOf(sel, source);
            var after := StatsOf(RecordAll(sel, attempts), source);
            && after.totalRequests == before.totalRequests + |Filter(attempts, AttemptsOn(source))|
            && after.successCount == before.successCount + |Filter(attempts, SuccessesOn(source))|
            && after.failCount == before.failCount + |Filter(attempts, FailuresOn(source))|
    decreases |attempts|
  {
    if |attempts| > 0 {
      RecordAllCounts(sel, attempts[..|attempts| - 1], source);
    }
  }

  /** Recording keeps every source's counters consistent. */
  lemma {:induction false} RecordAllConsistent(sel: Selector, attempts: seq<Attempt>)
    requires AllConsistent(sel)
    ensures AllConsistent(RecordAll(sel, attempts))
    decreases |attempts|
  {
    if |attempts| > 0 {
      RecordAllConsistent(sel, attempts[..|attempts| - 1]);
    }
  }

  /** A source stays in play when it was never tried, or when its success
      rate reaches the threshold. */
  predicate Active(sel: Selector, source: string) {
    || source !in sel.stats
    || sel.stats[source].totalRequests == 0
    || SuccessRate(sel.stats[source]) >= sel.minSuccessRate
  }

  function ActiveIn(sel: Selector): string -> bool {
    (source: string) => Active(sel, source)
  }

  /** `get_active_sources`: the active sources of the list, in its order. */
  function GetActiveSources(sel: Selector, all: seq<string>): (r: seq<string>)
    ensures Subseq(r, all)
    ensures forall s :: s in r <==> s in all && Active(sel, s)
    ensures forall s :: s in all && (s !in sel.stats || sel.stats[s].totalRequests == 0) ==> s in r
  {
    Filter(all, ActiveIn(sel))
  }

  /** Filtering by a weaker condition keeps every element a stronger one keeps. */
  lemma {:induction false} FilterWeaker<T(!new)>(xs: seq<T>, p: T -> bool, q: T -> bool)
    requires forall x :: p(x) ==> q(x)
    ensures Subseq(Filter(xs, p), Filter(xs, q))
    decreases |xs|
  {
    if |xs| > 0 {
      var init := xs[..|xs| - 1];
      FilterWeaker(init, p, q);
      var fp := Filter(init, p);
      var fq := Filter(init, q);
      var x := xs[|xs| - 1];
      if p(x) {
        assert Filter(xs, p) == fp + [x] && Filter(xs, q) == fq + [x];
        assert (fp + [x])[..|fp|] == fp;
        assert (fq + [x])[..|fq|] == fq;
      } else if q(x) {
        assert Filter(xs, q) == fq + [x];
        assert (fq + [x])[..|fq|] == fq;
        SubseqExtend(fp, fq, x);
      }
    }
  }

  lemma SubseqExtend<T>(xs: seq<T>, ys: seq<T>, y: T)
    requires Subseq(xs, ys)
    ensures Subseq(xs, ys + [y])
  {
    assert (ys + [y])[..|ys|] == ys;
  }

  /** Lowering the threshold never drops a source that was kept. */
  lemma ActiveMonotone(sel: Selector, lower: real, all: seq<string>)
    requires lower <= sel.minSuccessRate
    ensures Subseq(GetActiveSources(sel, all), GetActiveSources(sel.(minSuccessRate := lower), all))
  {
    FilterWeaker(all, ActiveIn(sel), ActiveIn(sel.(minSuccessRate := lower)));
  }

  /** A source whose every attempt failed is dropped exactly when the
      threshold is positive. */
  lemma AlwaysFailingDropped(sel: Selector, source: string)
    requires source in sel.stats && Consistent(sel.stats[source])
    requires sel.stats[source].totalRequests > 0 && sel.stats[source].successCount == 0
    ensures Active(sel, source) <==> sel.minSuccessRate <= 0.0
  {
  }

  // ---- ConcurrentDataFetcher ----

  /** What the per-stock fetch function does: returns data (possibly
      `None`), or raises. */
  datatype FetchOutcome = Fetched(data: Option<Json>) | Raised

  /** A `FetchResult`: the stock, its data, whether it succeeded, and how long it took. */
  datatype FetchResult = FetchResult(code: Cell, name: Cell, data: Option<Json>, success: bool, duration: real)

  /** `d.get(k, default)` */
  function GetOr(d: Json, k: string, default: Cell): Cell {
    if k in d then d[k] else default
  }

  /** `_fetch_single_stock`: no result for a stock without a truthy code;
      otherwise a result that succeeds exactly when the fetch returned data. */
  function FetchSingle(stock: Json, fetch: (Cell, Cell) -> FetchOutcome, duration: real): (r: Option<FetchResult>)
    ensures r.None? <==> !Truthy(GetOr(stock, "code", Str("")))
    ensures r.Some? ==> r.value.code == GetOr(stock, "code", Str("")) && r.value.name == GetOr(stock, "name", Str(""))
    ensures r.Some? ==> (r.value.success <==> fetch(r.value.code, r.value.name) == Fetched(r.value.data) && r.value.data.Some?)
  {
    var code := GetOr(stock, "code", Str(""));
    var name := GetOr(stock, "name", Str(""));
    if !Truthy(code) then None
    else
      match fetch(code, name)
      case Fetched(data) => Some(FetchResult(code, name, data, data.Some?, duration))
      case Raised => Some(FetchResult(code, name, None, false, duration))
  }

  /** The results the run collects, one per stock with a code. */
  function Results(stocks: seq<Json>, fetch: (Cell, Cell) -> FetchOutcome, durations: seq<real>): (r: seq<FetchResult>)
    requires |durations| == |stocks|
    ensures |r| <= |stocks|
  {
    if |stocks| == 0 then []
    else
      var n := |stocks| - 1;
      var init := Results(stocks[..n], fetch, durations[..n]);
      match FetchSingle(stocks[n], fetch, durations[n])
      case None => init
      case Some(x) => init + [x]
  }

  /** The row a successful result becomes: its code and name, then the
      fetched fields, which win on a clash. */
  function ResultRow(r: FetchResult): (row: Json)
    ensures row.Keys == {"stock_code", "stock_name"} + (if r.data.Some? then r.data.value.Keys else {})
    ensures r.data.Some? ==> forall k :: k in r.data.value ==> row[k] == r.data.value[k]
    ensures r.data.None? || "stock_code" !in r.data.value ==> row["stock_code"] == r.code
    ensures r.data.None? || "stock_name" !in r.data.value ==> row["stock_name"] == r.name
  {
    var base := map["stock_code" := r.code, "stock_name" := r.name];
    // updating with an empty dict, which Python skips, changes nothing
    if r.data.Some? then base + r.data.value else base
  }

  function RowOf(r: FetchResult): Option<Json> {
    if r.success then Some(ResultRow(r)) else None
  }

  function Succeeded(r: FetchResult): bool {
    r.success
  }

  /** The conversion at the end of `fetch_concurrent`: one row per
      successful result, in order. */
  function ConvertResults(results: seq<FetchResult>): (rows: seq<Json>)
    ensures |rows| == |Filter(results, Succeeded)|
  {
    RowsCount(results);
    FilterMap(results, RowOf)
  }

  lemma {:induction false} RowsCount(results: seq<FetchResult>)
    ensures |FilterMap(results, RowOf)| == |Filter(results, Succeeded)|
    decreases |results|
  {
    if |results| > 0 {
      RowsCount(results[..|results| - 1]);
    }
  }

  /** A row is returned exactly when some successful result produces it. */
  lemma ConvertedRows(results: seq<FetchResult>, row: Json)
    ensures row in ConvertResults(results) <==> exists r :: r in results && r.success && ResultRow(r) == row
  {
    FilterMapContents(results, RowOf, row);
  }

  function TotalTime(results: seq<FetchResult>): real {
    if |results| == 0 then 0.0 else TotalTime(results[..|results| - 1]) + results[|results| - 1].duration
  }

  /** The summary `_generate_stats` returns. */
  datatype FetchStats = FetchStats(total: int, success: int, failed: int, successRate: real, totalTime: real, avgTime: real)

  /** `_generate_stats`: counts that add up, and rates that are 0 for an
      empty run. */
  function GenerateStats(results: seq<FetchResult>): (s: FetchStats)
    ensures s.total == |results| && s.success == |Filter(results, Succeeded)|
    ensures 0 <= s.success <= s.total && s.failed == s.total - s.success
    ensures s.totalTime == TotalTime(results)
    ensures s.total == 0 ==> s.successRate == 0.0 && s.avgTime == 0.0
    ensures s.successRate == Ratio(s.success, s.total) && s.avgTime == Mean(s.totalTime, s.total)
  {
    var total := |results|;
    var success := |Filter(results, Succeeded)|;
    var t := TotalTime(results);
    FetchStats(total, success, total - success, Ratio(success, total), t, Mean(t, total))
  }

  /** `fetch_concurrent`: the rows of the successful fetches and the
      summary, or no summary at all for an empty stock list.  The run
      returns as many rows as the summary counts successes. */
  function FetchConcurrent(stocks: seq<Json>, fetch: (Cell, Cell) -> FetchOutcome, durations: seq<real>)
    : (r: (seq<Json>, Option<FetchStats>))
    requires |durations| == |stocks|
    ensures |stocks| == 0 ==> r == ([], None)
    ensures |stocks| > 0 ==> r.1.Some? && |r.0| == r.1.value.success && r.1.value.total <= |stocks|
  {
    if |stocks| == 0 then ([], None)
    else
      var results := Results(stocks, fetch, durations);
      (ConvertResults(results), Some(GenerateStats(results)))
  }

  /** Every result of the run belongs to a stock with a truthy code, fetched
      under that code and name. */
  lemma {:induction false} ResultsFromStocks(stocks: seq<Json>, fetch: (Cell, Cell) -> FetchOutcome, durations: seq<real>,
                                             r: FetchResult)
    requires |durations| == |stocks|
    ensures r in Results(stocks, fetch, durations) <==>
              exists i :: 0 <= i < |stocks| && FetchSingle(stocks[i], fetch, durations[i]) == Some(r)
    decreases |stocks|
  {
    if |stocks| > 0 {
      var n := |stocks| - 1;
      ResultsFromStocks(stocks[..n], fetch, durations[..n], r);
      assert forall i :: 0 <= i < n ==> stocks[..n][i] == stocks[i] && durations[..n][i] == durations[i];
    }
  }
}
