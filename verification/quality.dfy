/** Data-quality scoring: four component scores (completeness, accuracy,
    timeliness, coverage) on a 0-100 scale, their weighted overall score and
    letter grade, and the issues and warnings a monitoring pass raises.
    Counts are integers; a count missing from the statistics is 0.  The age
    of the collection date is given by an oracle that stands for parsing the
    date and subtracting it from the clock. */
module QualityMonitor {
  import opened Wrappers
  import opened Records

  /** The standard number of A-share stocks. */
  const StandardTotal: int := 5434

  const CompletenessWeight: real := 0.30
  const AccuracyWeight: real := 0.30
  const TimelinessWeight: real := 0.20
  const CoverageWeight: real := 0.20

  /** The weights make the overall score a weighted average. */
  lemma WeightsSumToOne()
    ensures CompletenessWeight + AccuracyWeight + TimelinessWeight + CoverageWeight == 1.0
    ensures CompletenessWeight > 0.0 && AccuracyWeight > 0.0 && TimelinessWeight > 0.0 && CoverageWeight > 0.0
  {
  }

  /** The statistics a scoring pass reads.  `totalRecords` is `None` when
      the key is absent, because the accuracy score and the monitor default
      it differently. */
  datatype DataStats = DataStats(
    totalStocks: int,
    validRecords: int,
    totalRecords: Option<int>,
    validationErrors: int,
    collectionDate: Cell,
    withIndustry: int,
    with2023: int,
    with2024: int)

  /** The status word the explanations attach to a score. */
  datatype Status = Excellent | Good | Fair | Poor

  /** A score's status against three descending thresholds. */
  function Band(score: real, excellent: real, good: real, fair: real): (r: Status)
    requires excellent >= good >= fair
    ensures r == Excellent <==> score >= excellent
    ensures r == Good <==> good <= score < excellent
    ensures r == Fair <==> fair <= score < good
    ensures r == Poor <==> score < fair
  {
    if score >= excellent then Excellent
    else if score >= good then Good
    else if score >= fair then Fair
    else Poor
  }

  function Min(a: real, b: real): real {
    if a <= b then a else b
  }

  function Max(a: real, b: real): real {
    if a >= b then a else b
  }

  // ---- completeness ----

  /** `calculate_completeness_score`: the share of the standard total that
      was fetched, in percent, capped at 100. */
  function Completeness(totalStocks: int): (r: real)
    ensures totalStocks >= StandardTotal ==> r == 100.0
    ensures totalStocks < StandardTotal ==> r * StandardTotal as real == totalStocks as real * 100.0
    ensures totalStocks >= 0 ==> 0.0 <= r <= 100.0
  {
    Min(100.0, totalStocks as real / StandardTotal as real * 100.0)
  }

  function CompletenessStatus(totalStocks: int): Status {
    Band(Completeness(totalStocks), 98.0, 95.0, 90.0)
  }

  /** Fetching more stocks never lowers the completeness score. */
  lemma CompletenessMonotone(a: int, b: int)
    requires a <= b
    ensures Completeness(a) <= Completeness(b)
  {
    var k := StandardTotal as real;
    assert a as real / k * 100.0 <= b as real / k * 100.0 by {
      assert a as real / k <= b as real / k;
    }
  }

  // ---- accuracy ----

  /** `calculate_accuracy_score`: the share of valid records, in percent,
      capped at 100; 0 when there are no records. */
  function Accuracy(validRecords: int, totalRecords: int): (r: real)
    ensures totalRecords == 0 ==> r == 0.0
    ensures 0 < totalRecords <= validRecords ==> r == 100.0
    ensures 0 <= validRecords <= totalRecords && totalRecords > 0 ==> r * totalRecords as real == validRecords as real * 100.0
    ensures 0 <= validRecords && 0 < totalRecords ==> 0.0 <= r <= 100.0
  {
    if totalRecords == 0 then 0.0
    else Min(100.0, validRecords as real / totalRecords as real * 100.0)
  }

  function AccuracyStatus(validRecords: int, totalRecords: int): Status {
    Band(Accuracy(validRecords, totalRecords), 95.0, 90.0, 85.0)
  }

  // ---- timeliness ----

  /** The score ladder for a collection date `days` days old, before clamping. */
  function AgeLadder(days: int): int {
    if days == 0 then 100
    else if days <= 7 then 80 - days * 5
    else if days <= 30 then 40 - (days - 7) * 2
    else 10
  }

  function Clamp(x: int, lo: int, hi: int): (r: int)
    requires lo <= hi
    ensures lo <= r <= hi
    ensures lo <= x <= hi ==> r == x
  {
    if x < lo then lo else if x > hi then hi else x
  }

  /** `calculate_timeliness_score`: 0 without a (truthy) collection date, 50
      when its age cannot be worked out, otherwise the age ladder clamped to
      0..100.  `daysOld` returns `None` when parsing or subtracting raises. */
  function Timeliness(date: Cell, daysOld: Cell -> Option<int>): (r: int)
    ensures 0 <= r <= 100
    ensures !Truthy(date) ==> r == 0
    ensures Truthy(date) && daysOld(date).None? ==> r == 50
    ensures Truthy(date) && daysOld(date).Some? ==>
              var d := daysOld(date).value;
              && (d <= -4 ==> r == 100)
              && (-4 <= d <= 7 && d != 0 ==> r == 80 - 5 * d)
              && (d == 0 ==> r == 100)
              && (8 <= d <= 27 ==> r == 40 - 2 * (d - 7))
              && (27 <= d <= 30 ==> r == 0)
              && (d > 30 ==> r == 10)
  {
    if !Truthy(date) then 0
    else
      match daysOld(date)
      case None => 50
      case Some(d) => Clamp(AgeLadder(d), 0, 100)
  }

  /** Of two dated collections from the past month, the older one never
      scores higher. */
  lemma TimelinessNonIncreasingWithinMonth(date1: Cell, date2: Cell, daysOld: Cell -> Option<int>)
    requires Truthy(date1) && Truthy(date2) && daysOld(date1).Some? && daysOld(date2).Some?
    requires 0 <= daysOld(date1).value <= daysOld(date2).value <= 30
    ensures Timeliness(date1, daysOld) >= Timeliness(date2, daysOld)
  {
  }

  /** The ladder is not monotone past a month: a 28-day-old collection
      scores 0, below the flat 10 of anything older than 30 days. */
  lemma TimelinessRisesAfterMonth(date1: Cell, date2: Cell, daysOld: Cell -> Option<int>)
    requires Truthy(date1) && Truthy(date2)
    requires daysOld(date1) == Some(28) && daysOld(date2) == Some(31)
    ensures Timeliness(date1, daysOld) == 0 && Timeliness(date2, daysOld) == 10
  {
  }

  // ---- coverage ----

  /** `calculate_coverage_score`: 40% industry coverage plus 30% each of
      2023 and 2024 financial coverage, in percent of the stocks; 0 when
      there are no stocks. */
  function Coverage(totalStocks: int, withIndustry: int, with2023: int, with2024: int): (r: real)
    ensures totalStocks == 0 ==> r == 0.0
    ensures totalStocks != 0 ==>
              r * totalStocks as real == 40.0 * withIndustry as real + 30.0 * with2023 as real + 30.0 * with2024 as real
  {
    if totalStocks == 0 then 0.0
    else
      var t := totalStocks as real;
      (withIndustry as real / t * 100.0) * 0.4 + (with2023 as real / t * 100.0) * 0.3 + (with2024 as real / t * 100.0) * 0.3
  }

  /** With every count between 0 and the number of stocks, coverage is a
      percentage. */
  lemma CoverageBounded(totalStocks: int, withIndustry: int, with2023: int, with2024: int)
    requires 0 <= withIndustry <= totalStocks && 0 <= with2023 <= totalStocks && 0 <= with2024 <= totalStocks
    ensures 0.0 <= Coverage(totalStocks, withIndustry, with2023, with2024) <= 100.0
  {
    if totalStocks != 0 {
      var t := totalStocks as real;
      var s := 40.0 * withIndustry as real + 30.0 * with2023 as real + 30.0 * with2024 as real;
      QuotientBounded(Coverage(totalStocks, withIndustry, with2023, with2024), s, t);
    }
  }

  /** A quotient of a sum that lies between 0 and 100 times its positive divisor. */
  lemma QuotientBounded(r: real, s: real, t: real)
    requires t > 0.0 && r * t == s && 0.0 <= s <= 100.0 * t
    ensures 0.0 <= r <= 100.0
  {
    assert r == s / t;
  }

  function CoverageStatus(totalStocks: int, withIndustry: int, with2023: int, with2024: int): Status {
    Band(Coverage(totalStocks, withIndustry, with2023, with2024), 95.0, 85.0, 75.0)
  }

  // ---- overall ----

  /** The letter grades, best first. */
  datatype Grade = APlus | A | BPlus | B | C | D

  /** The lowest overall score that earns a grade. */
  function GradeFloor(g: Grade): real {
    match g
    case APlus => 95.0
    case A => 90.0
    case BPlus => 85.0
    case B => 80.0
    case C => 70.0
    case D => 0.0
  }

  /** A grade's position, 0 for the best. */
  function GradeRank(g: Grade): int {
    match g
    case APlus => 0
    case A => 1
    case BPlus => 2
    case B => 3
    case C => 4
    case D => 5
  }

  /** The grade ladder: the best grade whose floor the score reaches, D below 70. */
  function GradeOf(score: real): (g: Grade)
    ensures g != D ==> score >= GradeFloor(g)
    ensures forall h :: GradeRank(h) < GradeRank(g) && h != D ==> score < GradeFloor(h)
  {
    if score >= 95.0 then APlus
    else if score >= 90.0 then A
    else if score >= 85.0 then BPlus
    else if score >= 80.0 then B
    else if score >= 70.0 then C
    else D
  }

  /** A higher score never earns a worse grade. */
  lemma GradeMonotone(s1: real, s2: real)
    requires s1 <= s2
    ensures GradeRank(GradeOf(s2)) <= GradeRank(GradeOf(s1))
  {
  }

  /** The four component scores, the weighted overall score and its grade. */
  datatype QualityReport = QualityReport(
    completeness: real,
    accuracy: real,
    timeliness: real,
    coverage: real,
    overall: real,
    grade: Grade)

  /** `calculate_overall_score`. */
  function OverallScore(stats: DataStats, daysOld: Cell -> Option<int>): (r: QualityReport)
    ensures r.completeness == Completeness(stats.totalStocks)
    ensures r.accuracy == Accuracy(stats.validRecords, stats.totalRecords.GetOr(0))
    ensures r.timeliness == Timeliness(stats.collectionDate, daysOld) as real
    ensures r.coverage == Coverage(stats.totalStocks, stats.withIndustry, stats.with2023, stats.with2024)
    ensures r.grade == GradeOf(r.overall)
    ensures Min(Min(r.completeness, r.accuracy), Min(r.timeliness, r.coverage)) <= r.overall
    ensures r.overall <= Max(Max(r.completeness, r.accuracy), Max(r.timeliness, r.coverage))
  {
    var c := Completeness(stats.totalStocks);
    var a := Accuracy(stats.validRecords, stats.totalRecords.GetOr(0));
    var t := Timeliness(stats.collectionDate, daysOld) as real;
    var v := Coverage(stats.totalStocks, stats.withIndustry, stats.with2023, stats.with2024);
    var overall := c * CompletenessWeight + a * AccuracyWeight + t * TimelinessWeight + v * CoverageWeight;
    QualityReport(c, a, t, v, overall, GradeOf(overall))
  }

  /** Statistics whose counts are all in range. */
  predicate Sane(stats: DataStats) {
    && stats.totalStocks >= 0
    && 0 <= stats.validRecords
    && (stats.totalRecords.Some? ==> stats.totalRecords.value >= 0)
    && 0 <= stats.withIndustry <= stats.totalStocks
    && 0 <= stats.with2023 <= stats.totalStocks
    && 0 <= stats.with2024 <= stats.totalStocks
  }

  /** For sane statistics the overall score is a percentage. */
  lemma OverallBounded(stats: DataStats, daysOld: Cell -> Option<int>)
    requires Sane(stats)
    ensures 0.0 <= OverallScore(stats, daysOld).overall <= 100.0
  {
    CoverageBounded(stats.totalStocks, stats.withIndustry, stats.with2023, stats.with2024);
  }

  // ---- monitor ----

  /** What a monitoring pass reports, each with the figure it quotes. */
  datatype Finding =
    | Incomplete(totalStocks: int)
    | HighErrorRate(percent: real)
    | LowIndustryCoverage(percent: real)
    | Missing2024(percent: real)

  /** The advice each finding adds. */
  datatype Suggestion = TryMoreSources | CheckValidation | MoreIndustrySources | Complete2024

  datatype MonitorReport = MonitorReport(
    score: QualityReport,
    issues: seq<Finding>,
    warnings: seq<Finding>,
    suggestions: seq<Suggestion>)

  /** The completeness check: fewer than 98% of the standard total. */
  predicate IncompleteCount(totalStocks: int) {
    (totalStocks as real) < StandardTotal as real * 0.98
  }

  /** For whole counts the completeness issue is raised at 5325 stocks or fewer. */
  lemma IncompleteCountThreshold(totalStocks: int)
    ensures IncompleteCount(totalStocks) <==> totalStocks <= 5325
  {
  }

  /** More than 5% validation errors, over the record count or over 1 when
      that is absent. */
  predicate HighErrors(stats: DataStats) {
    var total := stats.totalRecords.GetOr(1);
    stats.validationErrors > 0 && total != 0 && stats.validationErrors as real / total as real * 100.0 > 5.0
  }

  /** The error-rate warning: `None` when the rate divides by zero. */
  function ErrorRateCheck(stats: DataStats): (r: Option<seq<Finding>>)
    ensures r.None? <==> stats.validationErrors > 0 && stats.totalRecords == Some(0)
    ensures r.Some? ==> |r.value| <= 1 && forall w :: w in r.value ==> w.HighErrorRate? && w.percent > 5.0
    ensures r.Some? ==> (|r.value| == 1 <==> HighErrors(stats))
  {
    if stats.validationErrors <= 0 then Some([])
    else
      var total := stats.totalRecords.GetOr(1);
      if total == 0 then None
      else
        var rate := stats.validationErrors as real / total as real * 100.0;
        if rate > 5.0 then Some([HighErrorRate(rate)]) else Some([])
  }

  /** The two coverage warnings. */
  datatype CoverageKind = IndustryKind | Financial2024Kind

  function CoverageFinding(kind: CoverageKind, percent: real): (f: Finding)
    ensures kind == IndustryKind <==> f.LowIndustryCoverage?
    ensures kind == Financial2024Kind <==> f.Missing2024?
  {
    match kind
    case IndustryKind => LowIndustryCoverage(percent)
    case Financial2024Kind => Missing2024(percent)
  }

  /** A coverage warning for a count below `fraction` of the stocks;
      `None` when its percentage divides by zero. */
  function CoverageCheck(count: int, totalStocks: int, fraction: real, kind: CoverageKind): (r: Option<seq<Finding>>)
    ensures r.None? <==> (count as real) < totalStocks as real * fraction && totalStocks == 0
    ensures r.Some? ==> |r.value| <= 1 && (|r.value| == 1 <==> (count as real) < totalStocks as real * fraction)
    ensures r.Some? ==> forall w :: w in r.value ==> w == CoverageFinding(kind, count as real / totalStocks as real * 100.0)
  {
    if (count as real) < totalStocks as real * fraction then
      if totalStocks == 0 then None
      else Some([CoverageFinding(kind, count as real / totalStocks as real * 100.0)])
    else Some([])
  }

  /** The advice that goes with a finding. */
  function SuggestionFor(f: Finding): Suggestion {
    match f
    case Incomplete(_) => TryMoreSources
    case HighErrorRate(_) => CheckValidation
    case LowIndustryCoverage(_) => MoreIndustrySources
    case Missing2024(_) => Complete2024
  }

  function Suggestions(fs: seq<Finding>): (r: seq<Suggestion>)
    ensures |r| == |fs| && forall i :: 0 <= i < |fs| ==> r[i] == SuggestionFor(fs[i])
  {
    seq(|fs|, i requires 0 <= i < |fs| => SuggestionFor(fs[i]))
  }

  /** `monitor`: the completeness issue, the error-rate, industry and 2024
      warnings, one suggestion per finding in the order found, and the
      quality report.  `None` when a warning's percentage divides by zero. */
  function Monitor(stats: DataStats, daysOld: Cell -> Option<int>): (r: Option<MonitorReport>)
    ensures r.Some? ==> r.value.score == OverallScore(stats, daysOld)
    ensures r.Some? ==> (r.value.issues == [Incomplete(stats.totalStocks)] <==> IncompleteCount(stats.totalStocks))
    ensures r.Some? ==> (r.value.issues == [] <==> !IncompleteCount(stats.totalStocks))
    ensures r.Some? ==> r.value.suggestions == Suggestions(r.value.issues + r.value.warnings)
    ensures r.Some? ==> |r.value.warnings| <= 3
    ensures r.Some? ==> ((exists w :: w in r.value.warnings && w.LowIndustryCoverage?)
                         <==> (stats.withIndustry as real) < stats.totalStocks as real * 0.95)
    ensures r.Some? ==> ((exists w :: w in r.value.warnings && w.Missing2024?)
                         <==> (stats.with2024 as real) < stats.totalStocks as real * 0.90)
    ensures r.Some? ==> ((exists w :: w in r.value.warnings && w.HighErrorRate?)
                         <==> HighErrors(stats))
  {
    var issues := if IncompleteCount(stats.totalStocks) then [Incomplete(stats.totalStocks)] else [];
    var errors := ErrorRateCheck(stats);
    var industry := CoverageCheck(stats.withIndustry, stats.totalStocks, 0.95, IndustryKind);
    var fin2024 := CoverageCheck(stats.with2024, stats.totalStocks, 0.90, Financial2024Kind);
    if errors.None? || industry.None? || fin2024.None? then None
    else
      var warnings := errors.value + industry.value + fin2024.value;
      Some(MonitorReport(OverallScore(stats, daysOld), issues, warnings, Suggestions(issues + warnings)))
  }

  /** Sane statistics never make the monitor divide by zero, unless
      validation errors are counted against an explicit zero of records. */
  lemma MonitorTotalOnSane(stats: DataStats, daysOld: Cell -> Option<int>)
    requires Sane(stats)
    ensures Monitor(stats, daysOld).None? <==> stats.validationErrors > 0 && stats.totalRecords == Some(0)
  {
  }
}
