/** The round-based classifier (`IndustryClassificationCompleteGetter`): the
    enabled sources are tried one per round in ascending priority, each round
    offering every still-pending code to one source, until nothing is pending,
    the sources are exhausted or the user interrupts; whatever is left gets the
    unclassified fallback.  Sources are oracles returning an `Outcome`; the
    interrupt flag is an oracle naming the first check at which it is seen set. */
module CompleteGetter {
  import opened Wrappers
  import opened Text
  import opened Ordering
  import opened Seqs
  import IF = IndustryFetcher

  const Unclassified: string := "未分类"

  /** `IndustryResult` of this module: a classification with its stock code
      and a confidence in [0, 1]. */
  datatype Classification = Classification(code: string, level1: string, level2: string, level3: string,
                                           industry: string, source: string, confidence: real)

  /** The entry `_fill_failed_stocks` writes for a code no source classified. */
  function FallbackFor(code: string): Classification {
    Classification(code, Unclassified, Unclassified, Unclassified, Unclassified, "unknown", 0.0)
  }

  // ---- sources and their order ----

  /** One entry of `COMPLETE_INDUSTRY_SOURCES`: its key, display name,
      `enabled` flag (`None` when absent) and `priority`. */
  datatype SourceEntry = SourceEntry(id: string, name: string, enabled: Option<bool>, priority: int)

  /** `_load_sources_config`: the entries whose `enabled` flag is true or absent, in order. */
  function LoadSourcesConfig(entries: seq<SourceEntry>): (r: seq<SourceEntry>)
    ensures |r| <= |entries|
    ensures forall e :: e in r <==> e in entries && e.enabled.GetOr(true)
  {
    if |entries| == 0 then []
    else (if entries[0].enabled.GetOr(true) then [entries[0]] else []) + LoadSourcesConfig(entries[1..])
  }

  function PriorityOf(e: SourceEntry): int {
    e.priority
  }

  /** `sorted(self.sources_config.items(), key=lambda x: x[1]['priority'])`:
      the enabled entries by ascending priority; a stable sort, so entries of
      equal priority keep their configuration order. */
  function SortedSources(entries: seq<SourceEntry>): (r: seq<SourceEntry>)
    ensures multiset(r) == multiset(LoadSourcesConfig(entries))
    ensures forall e :: e in r <==> e in entries && e.enabled.GetOr(true)
    ensures forall i, j :: 0 <= i < j < |r| ==> r[i].priority <= r[j].priority
    ensures forall p :: WithKey(r, PriorityOf, p) == WithKey(LoadSourcesConfig(entries), PriorityOf, p)
  {
    var enabled := LoadSourcesConfig(entries);
    var r := SortByKeyAscending(enabled, PriorityOf);
    assert forall e :: e in r <==> e in multiset(enabled);
    r
  }

  /** Keys and display names of the shipped `COMPLETE_INDUSTRY_SOURCES`. */
  const ShippedIds: seq<string> := ["eastmoney_quote", "eastmoney_f10", "sina_shenwan", "akshare",
                                    "tencent_quote", "netease_f10", "cninfo", "cache_mapping"]
  const ShippedNames: seq<string> := ["东方财富行情", "东方财富F10", "新浪财经", "AkShare",
                                      "腾讯财经", "网易财经", "巨潮资讯", "缓存库映射"]

  /** The shipped configuration: all eight sources enabled, priorities 1 to 8 in declaration order. */
  const ShippedSources: seq<SourceEntry> :=
    seq(8, i requires 0 <= i < 8 => SourceEntry(ShippedIds[i], ShippedNames[i], Some(true), i + 1))

  /** With the shipped configuration the rounds follow the configuration order. */
  lemma ShippedSourcesOrder()
    ensures SortedSources(ShippedSources) == ShippedSources
  {
    AllEnabled(ShippedSources);
    SortByKeyAscendingSorted(ShippedSources, PriorityOf);
  }

  lemma {:induction false} AllEnabled(entries: seq<SourceEntry>)
    requires forall i :: 0 <= i < |entries| ==> entries[i].enabled == Some(true)
    ensures LoadSourcesConfig(entries) == entries
    decreases |entries|
  {
    if |entries| > 0 {
      AllEnabled(entries[1..]);
      assert entries == [entries[0]] + entries[1..];
    }
  }

  // ---- inference ----

  /** `l1_mapping` in its insertion order: the first keyword contained in the
      text decides the first-level industry. */
  const L1Mapping: seq<(string, IF.Industry)> := [
    ("银行", IF.Banks), ("证券", IF.NonbankFinance), ("保险", IF.NonbankFinance),
    ("房地产", IF.RealEstate), ("建筑", IF.BuildingDecoration), ("建材", IF.BuildingMaterials),
    ("钢铁", IF.Steel), ("有色", IF.NonferrousMetals), ("煤炭", IF.Coal), ("石油", IF.Petrochemical),
    ("化工", IF.BasicChemicals), ("电力", IF.Utilities), ("公用", IF.Utilities),
    ("医药", IF.Pharmaceuticals), ("食品", IF.FoodBeverage), ("饮料", IF.FoodBeverage),
    ("家电", IF.HomeAppliances), ("电子", IF.Electronics), ("计算机", IF.Computers),
    ("通信", IF.Telecom), ("传媒", IF.Media), ("汽车", IF.Automobiles), ("机械", IF.Machinery),
    ("设备", IF.Machinery), ("军工", IF.Defense), ("国防", IF.Defense), ("纺织", IF.Textiles),
    ("轻工", IF.LightManufacturing), ("零售", IF.Retail), ("商贸", IF.Retail),
    ("交通", IF.Transportation), ("运输", IF.Transportation), ("环保", IF.Environmental),
    ("农林", IF.Agriculture), ("牧渔", IF.Agriculture), ("农业", IF.Agriculture),
    ("美容", IF.BeautyCare), ("护理", IF.BeautyCare), ("综合", IF.Conglomerate)]

  predicate Occurs(s: string, entry: (string, IF.Industry)) {
    Contains(s, entry.0)
  }

  /** Whether an entry's keyword occurs in `s`. */
  function OccursIn(s: string): ((string, IF.Industry)) -> bool {
    (e: (string, IF.Industry)) => Occurs(s, e)
  }

  /** The first-level industry a keyword mapping gives: that of the first
      keyword occurring in `s`, composite when none occurs. */
  function MappedBy(mapping: seq<(string, IF.Industry)>, s: string): (l: IF.Industry)
    ensures l != IF.Conglomerate ==> exists i :: 0 <= i < |mapping| && mapping[i].1 == l && Contains(s, mapping[i].0)
    ensures (forall i :: 0 <= i < |mapping| ==> !Contains(s, mapping[i].0)) ==> l == IF.Conglomerate
    ensures forall i :: FirstBy(mapping, OccursIn(s), i) ==> l == mapping[i].1
  {
    var i := FirstIndex(mapping, OccursIn(s), 0);
    FirstIndexFinds(mapping, OccursIn(s));
    if i < |mapping| then mapping[i].1 else IF.Conglomerate
  }

  /** The first-level industry `l1_mapping` gives, composite when no keyword occurs. */
  function MappedL1(s: string): (l: IF.Industry)
    ensures l != IF.Conglomerate ==> exists i :: 0 <= i < |L1Mapping| && L1Mapping[i].1 == l && Contains(s, L1Mapping[i].0)
    ensures (forall i :: 0 <= i < |L1Mapping| ==> !Contains(s, L1Mapping[i].0)) ==> l == IF.Conglomerate
    ensures forall i :: FirstBy(L1Mapping, OccursIn(s), i) ==> l == L1Mapping[i].1
  {
    MappedBy(L1Mapping, s)
  }

  /** The "special case" block for banks and non-bank finance, as written. */
  function SpecialCase(l1: string, s: string): string {
    if l1 == "银行" || l1 == "非银金融" then
      if Contains(s, "银行") then "银行"
      else if Contains(s, "证券") || Contains(s, "保险") then "非银金融"
      else l1
    else l1
  }

  /** A mapping that starts with banks, then securities and insurance. */
  predicate FinanceFirst(mapping: seq<(string, IF.Industry)>) {
    && |mapping| >= 3
    && mapping[0] == ("银行", IF.Banks)
    && mapping[1] == ("证券", IF.NonbankFinance)
    && mapping[2] == ("保险", IF.NonbankFinance)
  }

  /** The special case never changes the label: "银行" is the first keyword, so
      a text containing it is already a bank, and a non-bank-finance label only
      comes from "证券" or "保险". */
  lemma SpecialCaseNoop(s: string)
    ensures SpecialCase(MappedL1(s).Name(), s) == MappedL1(s).Name()
  {
    MappingHead();
    SpecialCaseNoopBy(L1Mapping, s);
  }

  lemma SpecialCaseNoopBy(mapping: seq<(string, IF.Industry)>, s: string)
    requires FinanceFirst(mapping)
    ensures SpecialCase(MappedBy(mapping, s).Name(), s) == MappedBy(mapping, s).Name()
  {
    var l := MappedBy(mapping, s);
    FinanceNames(l);
    if Contains(s, "银行") {
      assert FirstBy(mapping, OccursIn(s), 0);
    } else if Contains(s, "证券") {
      assert FirstBy(mapping, OccursIn(s), 1);
    } else if Contains(s, "保险") {
      assert FirstBy(mapping, OccursIn(s), 2);
    }
  }

  /** Only banks carry the label "银行", and only non-bank finance "非银金融". */
  lemma FinanceNames(l: IF.Industry)
    ensures l.Name() == "银行" <==> l == IF.Banks
    ensures l.Name() == "非银金融" <==> l == IF.NonbankFinance
  {
  }

  /** The first three entries of the mapping: banks, then securities and insurance. */
  lemma MappingHead()
    ensures FinanceFirst(L1Mapping)
  {
  }

  /** `_infer_shenwan_levels` of the round-based classifier: blank text is
      unclassified on all three levels; otherwise the mapped first level, the
      same label as second level, and the label followed by "其他" as third. */
  function InferLevels(text: string): (levels: (string, string, string))
    ensures Strip(text) == "" ==> levels == (Unclassified, Unclassified, Unclassified)
    ensures Strip(text) != "" ==> IF.IsValidL1(levels.0) && levels.1 == levels.0 && levels.2 == levels.0 + "其他"
    ensures Strip(text) != "" ==> levels.0 == MappedL1(Strip(text)).Name()
  {
    var s := Strip(text);
    if s == "" then (Unclassified, Unclassified, Unclassified)
    else
      var l1 := MappedL1(s).Name();
      var l2 := l1;
      var l3 := l1 + "其他";
      SpecialCaseNoop(s);
      (SpecialCase(l1, s), l2, l3)
  }

  /** Any text mentioning a bank is classified as a bank. */
  lemma BankKeywordWins(text: string)
    requires Contains(Strip(text), "银行")
    ensures InferLevels(text).0 == "银行"
  {
    BankMapped(Strip(text));
  }

  lemma BankMapped(s: string)
    requires Contains(s, "银行")
    ensures s != "" && MappedL1(s) == IF.Banks
  {
    MappingHead();
    BankFirst(L1Mapping, s);
  }

  lemma BankFirst(mapping: seq<(string, IF.Industry)>, s: string)
    requires FinanceFirst(mapping) && Contains(s, "银行")
    ensures MappedBy(mapping, s) == IF.Banks
  {
    assert FirstBy(mapping, OccursIn(s), 0);
  }

  /** `_to_eastmoney_secid` of the round-based classifier: it looks only at the
      first character, so any code starting with 6, 0 or 3 gets a prefix. */
  function ToEastmoneySecid(code: string): (r: Option<string>)
    ensures r.Some? <==> |code| > 0 && code[0] in {'6', '0', '3'}
    ensures r.Some? ==> |r.value| == |code| + 2 && r.value[2..] == code && r.value[1] == '.'
    ensures r.Some? ==> r.value[..2] == (if code[0] == '6' then "1." else "0.")
  {
    if |code| > 0 && code[0] == '6' then Some("1." + code)
    else if |code| > 0 && (code[0] == '0' || code[0] == '3') then Some("0." + code)
    else None
  }

  // ---- rounds ----

  /** What one fetch produced: a result, nothing, a timeout, or another exception. */
  datatype Outcome = Found(result: Classification) | NoResult | TimedOut | Raised

  /** `IndustrySourceStats` counters. */
  datatype Stats = Stats(success: nat, fail: nat, timeout: nat, retry: nat)

  const ZeroStats: Stats := Stats(0, 0, 0, 0)

  /** The stock dictionary a code is fetched with: the first stock with that
      code, or one with empty name and industry. */
  function StockInfo(stocks: seq<IF.Stock>, code: string): (s: IF.Stock)
    ensures s.code == code
    ensures s in stocks || s == IF.Stock(code, "", "")
    ensures s in stocks ==> exists i :: 0 <= i < |stocks| && stocks[i] == s && forall j :: 0 <= j < i ==> stocks[j].code != code
    ensures (exists k :: 0 <= k < |stocks| && stocks[k].code == code) ==> s in stocks
  {
    var i := FirstIndex(stocks, (st: IF.Stock) => st.code == code, 0);
    if i < |stocks| then stocks[i] else IF.Stock(code, "", "")
  }

  /** A source's fetch: the source key, then the code, name and base industry. */
  type Fetch = (string, string, string, string) -> Outcome

  /** The source keys `_get_fetch_method` knows; any other key falls back to the cache mapping. */
  const FetchMethods: set<string> := {"eastmoney_quote", "eastmoney_f10", "sina_shenwan", "akshare", "tushare",
                                      "tencent_quote", "netease_f10", "cninfo", "cache_mapping"}

  /** `_get_fetch_method`: which source's fetch serves the key `id`. */
  function FetchMethod(id: string): (m: string)
    ensures m in FetchMethods
    ensures id in FetchMethods ==> m == id
    ensures id !in FetchMethods ==> m == "cache_mapping"
  {
    if id in FetchMethods then id else "cache_mapping"
  }

  /** The outcome of fetching `code` from source `src` within a round. */
  function FetchFor(fetch: Fetch, src: SourceEntry, stocks: seq<IF.Stock>, code: string): Outcome {
    var info := StockInfo(stocks, code);
    fetch(FetchMethod(src.id), code, info.name, info.industry)
  }

  /** The interrupt flag is modelled by the number of flag checks that find
      it clear: `None` when it is never set, `Some(n)` when checks 0 to n-1
      find it clear and every later check finds it set.  `Unseen(i, n)` says
      that the first `n` checks all find it clear. */
  predicate Unseen(interruptAt: Option<nat>, n: nat) {
    interruptAt.None? || interruptAt.value >= n
  }

  /** `processed_stocks` and `remaining_stocks` split the input codes. */
  ghost predicate Partition(codes: set<string>, processed: map<string, Classification>, remaining: set<string>) {
    remaining <= codes && forall c :: c in processed <==> c in codes && c !in remaining
  }

  /** The counter one fetch outcome increments: `success` for a result,
      `timeout` for a timeout, `fail` for nothing or another exception. */
  function Count(stats: Stats, o: Outcome): (r: Stats)
    ensures r.retry == stats.retry
    ensures r.success + r.fail + r.timeout == stats.success + stats.fail + stats.timeout + 1
    ensures r.success == stats.success + (if o.Found? then 1 else 0)
    ensures r.timeout == stats.timeout + (if o.TimedOut? then 1 else 0)
  {
    match o
    case Found(_) => stats.(success := stats.success + 1)
    case NoResult => stats.(fail := stats.fail + 1)
    case TimedOut => stats.(timeout := stats.timeout + 1)
    case Raised => stats.(fail := stats.fail + 1)
  }

  /** `_try_source` for a source whose fetch gives `outcome(c)` for code `c`:
      the counters `success` and `fail` are reset; each code of a snapshot of
      the pending set, in the set's (unspecified) order, is first checked
      against the interrupt flag (returning false at once if it is set) and
      then fetched; a result moves the code from pending to processed.
      `check0` counts the flag checks made before this round. */
  method TrySource(outcome: string -> Outcome, codes: set<string>,
                   processed0: map<string, Classification>, remaining0: set<string>, stats0: Stats,
                   interruptAt: Option<nat>, check0: nat)
    returns (ok: bool, processed: map<string, Classification>, remaining: set<string>, stats: Stats, check: nat)
    requires Partition(codes, processed0, remaining0)
    requires Unseen(interruptAt, check0)
    ensures Partition(codes, processed, remaining)
    ensures remaining <= remaining0
    ensures forall c :: c in processed0 ==> c in processed && processed[c] == processed0[c]
    ensures forall c :: c in remaining0 && c !in remaining ==> outcome(c) == Found(processed[c])
    ensures ok ==> forall c :: c in remaining ==> !outcome(c).Found?
    ensures ok <==> Unseen(interruptAt, check0 + |remaining0|)
    ensures ok ==> check == check0 + |remaining0|
    ensures !ok ==> check == interruptAt.value && remaining != {} && stats.retry == stats0.retry
    ensures ok ==> stats.success == |remaining0| - |remaining|
    ensures ok ==> stats.fail + (stats.timeout - stats0.timeout) == |remaining|
    ensures ok ==> stats.retry == stats.fail + stats.timeout
    ensures stats.timeout >= stats0.timeout
  {
    processed, remaining := processed0, remaining0;
    stats := stats0.(success := 0, fail := 0);
    check := check0;
    var todo := remaining0;
    while todo != {}
      invariant todo <= remaining <= remaining0
      invariant Partition(codes, processed, remaining)
      invariant check == check0 + |remaining0| - |todo|
      invariant Unseen(interruptAt, check)
      invariant forall c :: c in processed0 ==> c in processed && processed[c] == processed0[c]
      invariant forall c :: c in remaining0 && c !in remaining ==> outcome(c) == Found(processed[c])
      invariant forall c :: c in remaining && c !in todo ==> !outcome(c).Found?
      invariant stats.success == |remaining0| - |remaining|
      invariant stats.timeout >= stats0.timeout
      invariant stats.fail + (stats.timeout - stats0.timeout) == |remaining| - |todo|
      invariant stats.retry == stats0.retry
      decreases |todo|
    {
      if !Unseen(interruptAt, check + 1) {
        return false, processed, remaining, stats, check;
      }
      var c :| c in todo;
      todo := todo - {c};
      check := check + 1;
      var o := outcome(c);
      if o.Found? {
        processed := processed[c := o.result];
        remaining := remaining - {c};
      }
      stats := Count(stats, o);
    }
    stats := stats.(retry := stats.fail + stats.timeout);
    ok := true;
  }

  // ---- the whole run ----

  /** A round's fetch results, one function per source in round order. */
  type Outcomes = seq<string -> Outcome>

  /** Index of the first round whose source finds `c`, or the number of rounds. */
  function FirstFound(outcomes: Outcomes, c: string): (r: nat)
    ensures r <= |outcomes|
    ensures forall k :: 0 <= k < r ==> !outcomes[k](c).Found?
    ensures r < |outcomes| ==> outcomes[r](c).Found?
  {
    if |outcomes| == 0 then 0
    else if outcomes[0](c).Found? then 0
    else 1 + FirstFound(outcomes[1..], c)
  }

  /** The reference result of the multi-source lookup for `c`: the first source
      that finds it decides, and the fallback stands when none does. */
  function Resolve(outcomes: Outcomes, c: string): Classification {
    if |outcomes| == 0 then FallbackFor(c)
    else match outcomes[0](c)
      case Found(x) => x
      case _ => Resolve(outcomes[1..], c)
  }

  /** `Resolve` is the result of the first round that finds the code. */
  lemma {:induction false} ResolveFirstFound(outcomes: Outcomes, c: string)
    ensures FirstFound(outcomes, c) < |outcomes| ==> Resolve(outcomes, c) == outcomes[FirstFound(outcomes, c)](c).result
    ensures FirstFound(outcomes, c) == |outcomes| ==> Resolve(outcomes, c) == FallbackFor(c)
    decreases |outcomes|
  {
    if |outcomes| > 0 && !outcomes[0](c).Found? {
      ResolveFirstFound(outcomes[1..], c);
    }
  }

  /** The codes still pending when round `r` starts. */
  ghost function PendingAt(outcomes: Outcomes, codes: set<string>, r: nat): set<string> {
    set c | c in codes && FirstFound(outcomes, c) >= r
  }

  /** The number of interrupt-flag checks made by the first `r` rounds: one per pending code. */
  ghost function Checks(outcomes: Outcomes, codes: set<string>, r: nat): nat {
    if r == 0 then 0 else Checks(outcomes, codes, r - 1) + |PendingAt(outcomes, codes, r - 1)|
  }

  /** What holds between rounds: after `rounds` completed rounds the pending
      codes are those no round has found yet, every processed code holds the
      reference result, `check` flag checks have all found the flag clear, and
      each completed round's counters match the codes it found. */
  ghost predicate Between(outcomes: Outcomes, codes: set<string>, interruptAt: Option<nat>,
                          processed: map<string, Classification>, remaining: set<string>,
                          rounds: nat, check: nat, stats: seq<Stats>)
  {
    && rounds <= |outcomes| && |stats| == |outcomes|
    && Partition(codes, processed, remaining)
    && remaining == PendingAt(outcomes, codes, rounds)
    && (forall c :: c in processed ==> FirstFound(outcomes, c) < rounds && processed[c] == Resolve(outcomes, c))
    && check == Checks(outcomes, codes, rounds)
    && Unseen(interruptAt, check)
    && (forall r :: 0 <= r < rounds ==> RoundStats(stats[r], outcomes, codes, r))
    && (forall r :: rounds <= r < |outcomes| ==> stats[r] == ZeroStats)
  }

  /** One pass of the loop body: source `rounds` gets its round. */
  method Round(outcomes: Outcomes, codes: set<string>, interruptAt: Option<nat>,
               processed: map<string, Classification>, remaining: set<string>,
               rounds: nat, check: nat, stats: seq<Stats>)
    returns (ok: bool, processed': map<string, Classification>, remaining': set<string>, check': nat, stats': seq<Stats>)
    requires Between(outcomes, codes, interruptAt, processed, remaining, rounds, check, stats)
    requires rounds < |outcomes|
    ensures ok ==> Between(outcomes, codes, interruptAt, processed', remaining', rounds + 1, check', stats')
    ensures !ok ==> Partition(codes, processed', remaining') && remaining' != {}
    ensures !ok ==> forall c :: c in processed' ==> FirstFound(outcomes, c) <= rounds && processed'[c] == Resolve(outcomes, c)
    ensures !ok ==> forall c :: c in remaining' ==> FirstFound(outcomes, c) >= rounds
    ensures !ok ==> !Unseen(interruptAt, Checks(outcomes, codes, rounds + 1))
    ensures !ok ==> |stats'| == |outcomes| && stats'[rounds].retry == 0
    ensures !ok ==> forall r :: 0 <= r < rounds ==> RoundStats(stats'[r], outcomes, codes, r)
    ensures !ok ==> forall r :: rounds < r < |outcomes| ==> stats'[r] == ZeroStats
  {
    var roundStats;
    ok, processed', remaining', roundStats, check' :=
      TrySource(outcomes[rounds], codes, processed, remaining, stats[rounds], interruptAt, check);
    RoundResolved(outcomes, codes, interruptAt, processed, remaining, rounds, check, stats, processed', remaining');
    stats' := stats[rounds := roundStats];
    if ok {
      NextPending(outcomes, codes, rounds, remaining, remaining');
      RoundCounted(outcomes, codes, remaining, rounds, stats[rounds], remaining', roundStats);
    }
  }

  /** Every code a round adds to the processed ones holds the reference result. */
  lemma RoundResolved(outcomes: Outcomes, codes: set<string>, interruptAt: Option<nat>,
                      processed: map<string, Classification>, remaining: set<string>,
                      rounds: nat, check: nat, stats: seq<Stats>,
                      processed': map<string, Classification>, remaining': set<string>)
    requires Between(outcomes, codes, interruptAt, processed, remaining, rounds, check, stats)
    requires rounds < |outcomes|
    requires Partition(codes, processed', remaining') && remaining' <= remaining
    requires forall c :: c in processed ==> c in processed' && processed'[c] == processed[c]
    requires forall c :: c in remaining && c !in remaining' ==> outcomes[rounds](c) == Found(processed'[c])
    ensures forall c :: c in processed' ==> FirstFound(outcomes, c) <= rounds && processed'[c] == Resolve(outcomes, c)
    ensures forall c :: c in remaining' ==> FirstFound(outcomes, c) >= rounds
  {
    forall c | c in processed'
      ensures FirstFound(outcomes, c) <= rounds && processed'[c] == Resolve(outcomes, c)
    {
      ResolveFirstFound(outcomes, c);
    }
  }

  /** The counters of a round that ran to the end are those of a completed round. */
  lemma RoundCounted(outcomes: Outcomes, codes: set<string>, remaining: set<string>, rounds: nat,
                     stats0: Stats, remaining': set<string>, roundStats: Stats)
    requires remaining == PendingAt(outcomes, codes, rounds) && remaining' == PendingAt(outcomes, codes, rounds + 1)
    requires stats0 == ZeroStats
    requires roundStats.success == |remaining| - |remaining'|
    requires roundStats.fail + (roundStats.timeout - stats0.timeout) == |remaining'|
    requires roundStats.retry == roundStats.fail + roundStats.timeout
    ensures RoundStats(roundStats, outcomes, codes, rounds)
  {
  }

  /** The `while` loop of `get_complete_classification`: round `r` hands the
      codes still pending to source `r`, until nothing is pending, every source
      has had its round, or a round reports an interrupt.  `stats[r]` holds the
      counters of source `r`, reset to zero before the first round. */
  method Rounds(outcomes: Outcomes, codes: set<string>, interruptAt: Option<nat>)
    returns (processed: map<string, Classification>, remaining: set<string>, rounds: nat, ok: bool, stats: seq<Stats>)
    ensures Partition(codes, processed, remaining)
    ensures rounds <= |outcomes|
    ensures ok ==> remaining == {} || rounds == |outcomes|
    ensures !ok ==> rounds < |outcomes| && remaining != {}
    ensures forall c :: c in processed ==> FirstFound(outcomes, c) <= rounds && processed[c] == Resolve(outcomes, c)
    ensures forall c :: c in remaining ==> FirstFound(outcomes, c) >= rounds
    ensures ok ==> remaining == PendingAt(outcomes, codes, rounds)
    ensures Unseen(interruptAt, Checks(outcomes, codes, rounds))
    ensures !ok ==> !Unseen(interruptAt, Checks(outcomes, codes, rounds + 1))
    ensures |stats| == |outcomes|
    ensures forall r :: 0 <= r < rounds ==> RoundStats(stats[r], outcomes, codes, r)
    ensures forall r :: rounds < r < |outcomes| ==> stats[r] == ZeroStats
    ensures ok && rounds < |outcomes| ==> stats[rounds] == ZeroStats
    ensures !ok ==> stats[rounds].retry == 0
  {
    processed, remaining, rounds, ok := map[], codes, 0, true;
    stats := seq(|outcomes|, _ => ZeroStats);
    var check := 0;
    assert remaining == PendingAt(outcomes, codes, 0);
    while remaining != {} && rounds < |outcomes|
      invariant Between(outcomes, codes, interruptAt, processed, remaining, rounds, check, stats)
      decreases |outcomes| - rounds
    {
      var processed', remaining', check', stats';
      ok, processed', remaining', check', stats' := Round(outcomes, codes, interruptAt, processed, remaining, rounds, check, stats);
      processed, remaining, stats := processed', remaining', stats';
      if !ok {
        return;
      }
      check := check';
      rounds := rounds + 1;
    }
  }

  /** A completed round leaves pending exactly the codes it did not find. */
  lemma NextPending(outcomes: Outcomes, codes: set<string>, r: nat, before: set<string>, after: set<string>)
    requires r < |outcomes|
    requires before == PendingAt(outcomes, codes, r)
    requires after <= before
    requires forall c :: c in before && c !in after ==> outcomes[r](c).Found?
    requires forall c :: c in after ==> !outcomes[r](c).Found?
    ensures after == PendingAt(outcomes, codes, r + 1)
  {
    forall c | c in codes
      ensures c in after <==> FirstFound(outcomes, c) >= r + 1
    {
    }
  }

  /** The counters of a completed round `r`: one success per code it found, and
      one failure or timeout per code it left pending. */
  ghost predicate RoundStats(stats: Stats, outcomes: Outcomes, codes: set<string>, r: nat) {
    && stats.success == |PendingAt(outcomes, codes, r)| - |PendingAt(outcomes, codes, r + 1)|
    && stats.fail + stats.timeout == |PendingAt(outcomes, codes, r + 1)|
    && stats.retry == stats.fail + stats.timeout
  }

  /** The outcomes of the rounds for a configuration: round `r` uses the `r`-th
      enabled source in priority order. */
  function RoundOutcomes(fetch: Fetch, entries: seq<SourceEntry>, stocks: seq<IF.Stock>): (o: Outcomes)
    ensures |o| == |SortedSources(entries)|
  {
    var sorted := SortedSources(entries);
    seq(|sorted|, r requires 0 <= r < |sorted| => (c: string) => FetchFor(fetch, sorted[r], stocks, c))
  }

  /** `get_complete_classification` for given round outcomes and input codes
      (`hasStocks` is false for an empty stock list): the rounds, then
      `_fill_failed_stocks`. */
  method Classify(outcomes: Outcomes, codes: set<string>, hasStocks: bool, interruptAt: Option<nat>)
    returns (out: map<string, Classification>, interrupted: bool, rounds: nat, stats: seq<Stats>)
    ensures !hasStocks ==> out == map[] && !interrupted && rounds == 0
    ensures hasStocks ==> out.Keys == codes
    ensures rounds <= |outcomes| && |stats| == |outcomes|
    ensures !interrupted ==> forall c :: c in out ==> out[c] == Resolve(outcomes, c)
    ensures interrupted ==> forall c :: c in out ==>
              out[c] == Resolve(outcomes, c) || (out[c] == FallbackFor(c) && FirstFound(outcomes, c) >= rounds)
    ensures interrupted ==> exists c :: c in out && out[c] == FallbackFor(c)
    ensures interrupted ==> !Unseen(interruptAt, Checks(outcomes, codes, rounds + 1))
    ensures Unseen(interruptAt, Checks(outcomes, codes, rounds))
    ensures forall r :: 0 <= r < rounds ==> RoundStats(stats[r], outcomes, codes, r)
  {
    if !hasStocks {
      return map[], false, 0, seq(|outcomes|, _ => ZeroStats);
    }
    var processed, remaining, ok;
    processed, remaining, rounds, ok, stats := Rounds(outcomes, codes, interruptAt);
    interrupted := !ok;
    out := FillFailed(processed, remaining);
    forall c | c in remaining
      ensures FirstFound(outcomes, c) == |outcomes| ==> FallbackFor(c) == Resolve(outcomes, c)
    {
      ResolveFirstFound(outcomes, c);
    }
    if interrupted {
      var c :| c in remaining;
      assert c in out && out[c] == FallbackFor(c);
    }
  }

  /** `get_complete_classification` followed by `_result_to_dict`: the result
      per input code, whether the run was interrupted, how many rounds
      completed, and the per-source counters in round order.  Without an
      interrupt every code gets the result of the first source (by priority)
      that finds it, or the fallback; an interrupt stops the rounds early,
      and the codes still pending then get the fallback. */
  method GetCompleteClassification(fetch: Fetch, entries: seq<SourceEntry>, stocks: seq<IF.Stock>, interruptAt: Option<nat>)
    returns (out: map<string, Classification>, interrupted: bool, rounds: nat, stats: seq<Stats>)
    ensures |stocks| == 0 ==> out == map[] && !interrupted && rounds == 0
    ensures |stocks| > 0 ==> out.Keys == IF.Codes(stocks)
    ensures rounds <= |SortedSources(entries)| && |stats| == |SortedSources(entries)|
    ensures !interrupted ==> forall c :: c in out ==> out[c] == Resolve(RoundOutcomes(fetch, entries, stocks), c)
    ensures interrupted ==> forall c :: c in out ==>
              out[c] == Resolve(RoundOutcomes(fetch, entries, stocks), c) ||
              (out[c] == FallbackFor(c) && FirstFound(RoundOutcomes(fetch, entries, stocks), c) >= rounds)
    ensures interrupted ==> exists c :: c in out && out[c] == FallbackFor(c)
  {
    out, interrupted, rounds, stats := Classify(RoundOutcomes(fetch, entries, stocks), IF.Codes(stocks), |stocks| > 0, interruptAt);
  }

  /** `_fill_failed_stocks`: every code still pending gets the fallback; the processed ones keep their result. */
  function FillFailed(processed: map<string, Classification>, remaining: set<string>): (out: map<string, Classification>)
    ensures out.Keys == processed.Keys + remaining
    ensures forall c :: c in processed && c !in remaining ==> out[c] == processed[c]
    ensures forall c :: c in remaining ==> out[c] == FallbackFor(c)
  {
    map c | c in processed.Keys + remaining :: if c in remaining then FallbackFor(c) else processed[c]
  }
}
