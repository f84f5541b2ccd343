/** `data_processing_pipeline.py`: the record-level steps of
    `DataProcessingPipeline` -- validating a stock list, cleaning records,
    de-duplicating by code, the coverage statistics, and the final status. */
module DataPipeline {
  import opened Wrappers
  import opened Seqs
  import opened Records
  import opened DataValidator
  import DataDeduplication

  // ---- validate_stocks ----

  /** A stock whose code and name both pass validation. */
  predicate StockOk(s: Record) {
    ValidateStockCode(Get(s, Code)).Pass? && ValidateStockName(Get(s, Name)).Pass?
  }

  predicate StockBad(s: Record) {
    !StockOk(s)
  }

  /** One entry of the report's error list: the stock's code and its first problem. */
  datatype StockIssue = StockIssue(code: Cell, error: RecordError)

  datatype ValidationReport = ValidationReport(total: nat, valid: nat, invalid: nat, errors: seq<StockIssue>)

  /** `error or error2`: the code's problem if it has one, else the name's. */
  function IssueOf(s: Record): (e: StockIssue)
    requires StockBad(s)
    ensures e.code == Get(s, Code)
    ensures e.error.CodeProblem? <==> ValidateStockCode(Get(s, Code)).Fail?
  {
    match ValidateStockCode(Get(s, Code))
    case Fail(e) => StockIssue(Get(s, Code), CodeProblem(e))
    case Pass =>
      match ValidateStockName(Get(s, Name))
      case Fail(e) => StockIssue(Get(s, Code), NameProblem(e))
      case Pass => assert false; StockIssue(Get(s, Code), NameProblem(NameEmpty))
  }

  /** `validate_stocks`: the stocks that pass, in order, and a report in
      which every stock is counted once, as valid or as invalid with its
      problem listed. */
  method ValidateStocks(stocks: seq<Record>) returns (valid: seq<Record>, report: ValidationReport)
    ensures valid == Filter(stocks, StockOk)
    ensures report.total == |stocks| && report.valid == |valid| && report.invalid == |Filter(stocks, StockBad)|
    ensures report.valid + report.invalid == report.total
    ensures |report.errors| == report.invalid
    ensures forall i :: 0 <= i < |report.errors| ==> exists s :: s in stocks && StockBad(s) && report.errors[i] == IssueOf(s)
    ensures forall i :: 0 <= i < |report.errors| ==>
              StockBad(Filter(stocks, StockBad)[i]) && report.errors[i] == IssueOf(Filter(stocks, StockBad)[i])
  {
    var invalid;
    valid, invalid := SplitBy(stocks, StockOk, StockBad);
    var errors := seq(|invalid|, k requires 0 <= k < |invalid| => IssueOf(invalid[k]));
    forall i | 0 <= i < |errors|
      ensures exists s :: s in stocks && StockBad(s) && errors[i] == IssueOf(s)
    {
      var s := invalid[i];
      assert s in invalid;
      assert s in stocks && StockBad(s) && errors[i] == IssueOf(s);
    }
    report := ValidationReport(|stocks|, |valid|, |invalid|, errors);
  }

  // ---- clean_records ----

  datatype CleaningReport = CleaningReport(totalInput: nat, totalOutput: nat, cleaned: nat, discarded: nat)

  datatype Cleaning = Cleaning(records: seq<Record>, report: CleaningReport)

  /** Whether a cleaner's cleaned counter follows the validity check `ok`. */
  ghost predicate CountsValid(clean: Record -> CleanOutcome, ok: Record -> bool) {
    forall r :: clean(r).cleaned == (if clean(r).record.Some? && ok(clean(r).record.value) then 1 else 0)
  }

  /** The record a cleaner returns, kept only when it passes `ok`. */
  function KeptValid(clean: Record -> CleanOutcome, ok: Record -> bool): Record -> Option<Record> {
    r => if clean(r).record.Some? && ok(clean(r).record.value) then clean(r).record else None
  }

  /** `validate_record` reports no problem. */
  function Passes(parse: string -> Option<real>): Record -> bool {
    c => RecordOk(c, parse)
  }

  /** The cleaning loop for any cleaner with honest counters: keep what
      cleans and passes `ok`. */
  function CleanValid(rs: seq<Record>, clean: Record -> CleanOutcome, ok: Record -> bool): (b: CleanBatch)
    requires CountsHonest(clean) && CountsValid(clean, ok)
    ensures b.cleaned == |b.records|
    ensures |b.records| + b.discarded + |Filter(rs, Blank)| <= |rs|
    ensures forall i :: 0 <= i < |b.records| ==> ok(b.records[i])
    ensures forall x :: x in b.records ==> exists i :: 0 <= i < |rs| && clean(rs[i]).record == Some(x)
  {
    if |rs| == 0 then CleanBatch([], 0, 0)
    else
      var init := rs[..|rs| - 1];
      var b := CleanValid(init, clean, ok);
      var o := clean(rs[|rs| - 1]);
      assert rs == init + [rs[|rs| - 1]];
      assert forall i :: 0 <= i < |init| ==> rs[i] == init[i];
      match o.record
      case None => CleanBatch(b.records, b.discarded + o.discarded, b.cleaned)
      case Some(x) =>
        if ok(x) then CleanBatch(b.records + [x], b.discarded, b.cleaned + 1)
        else CleanBatch(b.records, b.discarded, b.cleaned)
  }

  /** The loop keeps what cleans and passes `ok`, in input order. */
  lemma {:induction false} CleanValidKept(rs: seq<Record>, clean: Record -> CleanOutcome, ok: Record -> bool)
    requires CountsHonest(clean) && CountsValid(clean, ok)
    ensures CleanValid(rs, clean, ok).records == FilterMap(rs, KeptValid(clean, ok))
    decreases |rs|
  {
    if |rs| > 0 {
      CleanValidKept(rs[..|rs| - 1], clean, ok);
    }
  }

  lemma CleanRecordCountsValid(parse: string -> Option<real>, fmt: real -> string)
    ensures CountsHonest(CleanerOf(parse, fmt))
    ensures CountsValid(CleanerOf(parse, fmt), Passes(parse))
  {
    CleanRecordHonest(parse, fmt);
  }

  /** `DataProcessingPipeline.clean_records`: the records that clean and
      validate, in order.  The cleaner's cleaned counter (reset first)
      ends equal to the number of records returned. */
  function PipelineCleanRecords(rs: seq<Record>, parse: string -> Option<real>, fmt: real -> string): (out: Cleaning)
    ensures out.report.totalInput == |rs| && out.report.totalOutput == |out.records|
    ensures out.report.cleaned == out.report.totalOutput
    ensures out.report.totalOutput + out.report.discarded <= out.report.totalInput
    ensures forall i :: 0 <= i < |out.records| ==> ValidateRecord(out.records[i], parse) == []
    ensures out.records == FilterMap(rs, KeptValid(CleanerOf(parse, fmt), Passes(parse)))
  {
    CleanRecordCountsValid(parse, fmt);
    CleanValidKept(rs, CleanerOf(parse, fmt), Passes(parse));
    var b := CleanValid(rs, CleanerOf(parse, fmt), Passes(parse));
    Cleaning(b.records, CleaningReport(|rs|, |b.records|, b.cleaned, b.discarded))
  }

  /** A record comes out of the pipeline's cleaning exactly when some input
      record cleans to it and it validates. */
  lemma PipelineCleanedMember(rs: seq<Record>, parse: string -> Option<real>, fmt: real -> string, x: Record)
    ensures x in PipelineCleanRecords(rs, parse, fmt).records <==>
              (exists r :: r in rs && CleanRecord(r, parse, fmt).record == Some(x)) && ValidateRecord(x, parse) == []
  {
    FilterMapContents(rs, KeptValid(CleanerOf(parse, fmt), Passes(parse)), x);
  }

  // ---- deduplicate_records ----

  datatype DedupReport = DedupReport(before: nat, after: nat, removed: nat)

  predicate Coded(r: Record) {
    Truthy(Get(r, Code))
  }

  predicate Codeless(r: Record) {
    !Coded(r)
  }

  /** `deduplicate_records`: the first record for each truthy code, in order;
      every record dropped, codeless ones included, counts as removed. */
  method DeduplicateRecords(records: seq<Record>) returns (deduped: seq<Record>, report: DedupReport)
    ensures Subseq(deduped, records)
    ensures forall i, j :: 0 <= i < j < |deduped| ==> Get(deduped[i], Code) != Get(deduped[j], Code)
    ensures forall i :: 0 <= i < |deduped| ==> Coded(deduped[i])
    ensures report.before == |records| && report.after == |deduped|
    ensures report.removed == report.before - report.after
    ensures |Filter(records, Codeless)| <= report.removed
    ensures forall i :: (0 <= i < |records| && Coded(records[i]) &&
                         forall j :: 0 <= j < i ==> Get(records[j], Code) != Get(records[i], Code)) ==> records[i] in deduped
    ensures forall y :: y in deduped ==>
              exists i :: 0 <= i < |records| && records[i] == y && forall j :: 0 <= j < i ==> Get(records[j], Code) != Get(y, Code)
  {
    deduped := DataDeduplication.DeduplicateStocks(records);
    SubseqFilterLength(deduped, records, Coded);
    FilterSplit(records, Coded, Codeless);
    report := DedupReport(|records|, |deduped|, |records| - |deduped|);
  }

  // ---- generate_data_statistics and the final status ----

  /** The coverage rates, present only when there is at least one stock. */
  datatype Coverage = Coverage(industry: real, y2023: real, y2024: real, completeness: real)

  datatype Statistics = Statistics(
    totalStocks: nat, totalRecords: nat, validRecords: nat, validationErrors: nat,
    withIndustry: nat, with2023: nat, with2024: nat,
    distribution: map<char, nat>, coverage: Option<Coverage>)

  /** The first code characters the distribution counts: 6, 0, 3, 8 and 4. */
  const DistributionChars: set<char> := {'6', '0', '3', '8', '4'}

  /** `record.get('non_op_real_estate_<year>')` is truthy. */
  function HasYear(y: Year): Record -> bool {
    r => Truthy(Get(r, Financial(y)))
  }

  /** `not r.get('valid', True)` */
  predicate MarkedInvalid(r: Record) {
    Valid in r && !Truthy(r[Valid])
  }

  /** `stock.get('code', '')` can be indexed: it is falsy or a string. */
  predicate CodeIndexable(s: Record) {
    !Truthy(Get(s, Code)) || Get(s, Code).Str?
  }

  /** The stock's code is a non-empty string starting with `c`. */
  function StartsWithChar(c: char): Record -> bool {
    s => Get(s, Code).Str? && |Get(s, Code).s| > 0 && Get(s, Code).s[0] == c
  }

  /** The five distribution counts added up. */
  function DistributionTotal(d: map<char, nat>): nat
    requires DistributionChars <= d.Keys
  {
    d['6'] + d['0'] + d['3'] + d['8'] + d['4']
  }

  /** No stock is counted under two first characters, so the distribution
      adds up to at most the number of stocks. */
  lemma {:induction false} DistributionBound(stocks: seq<Record>)
    ensures |Filter(stocks, StartsWithChar('6'))| + |Filter(stocks, StartsWithChar('0'))| + |Filter(stocks, StartsWithChar('3'))|
            + |Filter(stocks, StartsWithChar('8'))| + |Filter(stocks, StartsWithChar('4'))| <= |stocks|
    decreases |stocks|
  {
    if |stocks| > 0 {
      DistributionBound(stocks[..|stocks| - 1]);
    }
  }

  /** The code distribution: stocks per first character. */
  function Distribution(stocks: seq<Record>): (d: map<char, nat>)
    ensures d.Keys == DistributionChars
    ensures forall c :: c in DistributionChars ==> d[c] == |Filter(stocks, StartsWithChar(c))|
    ensures DistributionTotal(d) <= |stocks|
  {
    DistributionBound(stocks);
    map c | c in DistributionChars :: |Filter(stocks, StartsWithChar(c))|
  }

  /** The coverage rates for `total` stocks; completeness is their mean. */
  function CoverageOf(total: nat, industries: nat, c23: nat, c24: nat): (r: Option<Coverage>)
    ensures r.Some? <==> total > 0
    ensures r.Some? ==>
              && r.value.industry == industries as real / total as real
              && r.value.y2023 == c23 as real / total as real
              && r.value.y2024 == c24 as real / total as real
              && r.value.completeness == (r.value.industry + r.value.y2023 + r.value.y2024) / 3.0
              && r.value.completeness == (industries + c23 + c24) as real / (total as real * 3.0)
  {
    if total > 0 then
      var t := total as real;
      Some(Coverage(industries as real / t, c23 as real / t, c24 as real / t,
                    (industries + c23 + c24) as real / (t * 3.0)))
    else None
  }

  /** `generate_data_statistics`, or `None` when a stock's truthy code is not
      a string and `code[0]` raises. */
  function GenerateDataStatistics(stocks: seq<Record>, financial: seq<Record>, industries: nat): (r: Option<Statistics>)
    ensures r.None? <==> exists i :: 0 <= i < |stocks| && !CodeIndexable(stocks[i])
    ensures r.Some? ==>
              && r.value.totalStocks == |stocks| && r.value.totalRecords == |financial| == r.value.validRecords
              && r.value.withIndustry == industries
              && r.value.with2023 == |Filter(financial, HasYear(Y2023))| <= |financial|
              && r.value.with2024 == |Filter(financial, HasYear(Y2024))| <= |financial|
              && r.value.validationErrors == |Filter(financial, MarkedInvalid)|
              && r.value.distribution == Distribution(stocks)
              && r.value.coverage == CoverageOf(|stocks|, industries, r.value.with2023, r.value.with2024)
  {
    if exists i :: 0 <= i < |stocks| && !CodeIndexable(stocks[i]) then None
    else
      var c23 := |Filter(financial, HasYear(Y2023))|;
      var c24 := |Filter(financial, HasYear(Y2024))|;
      Some(Statistics(|stocks|, |financial|, |financial|, |Filter(financial, MarkedInvalid)|,
                      industries, c23, c24, Distribution(stocks), CoverageOf(|stocks|, industries, c23, c24)))
  }

  datatype Status = StatusSuccess | StatusWarning

  /** The status rule of `generate_final_report`: SUCCESS when the data
      completeness (0 when there is none) is at least 0.98.  Success needs
      stocks, and industry, 2023 and 2024 counts adding up to at least 2.94
      per stock. */
  function FinalStatus(stats: Statistics): (s: Status)
    requires stats.coverage == CoverageOf(stats.totalStocks, stats.withIndustry, stats.with2023, stats.with2024)
    ensures s == StatusSuccess ==>
              (stats.totalStocks > 0 &&
               (stats.withIndustry + stats.with2023 + stats.with2024) as real >= 2.94 * stats.totalStocks as real)
    ensures s == StatusSuccess <==> stats.coverage.Some? && stats.coverage.value.completeness >= 0.98
  {
    var completeness := match stats.coverage case None => 0.0 case Some(c) => c.completeness;
    if completeness >= 0.98 then
      QuotientAtLeast((stats.withIndustry + stats.with2023 + stats.with2024) as real,
                      stats.totalStocks as real * 3.0, completeness, 0.98);
      StatusSuccess
    else StatusWarning
  }

  /** A quotient of at least `k` has a numerator of at least `k` times its
      positive denominator. */
  lemma QuotientAtLeast(n: real, d: real, q: real, k: real)
    requires d > 0.0 && q == n / d && q >= k
    ensures n >= k * d
  {
    assert n == q * d;
    assert (q - k) * d >= 0.0;
  }
}
