/** The multi-source industry classifier (`IndustryClassificationFetcher`):
    which cached or fetched classifications it accepts, how it infers the
    first-level Shenwan industry from a free-text industry name, the order in
    which it consults its sources, and the single-stock and batch lookups.
    Every network source is an oracle: a function from (code, name, base
    industry) to a result or `None`, where `None` also stands for a raised
    exception (both make the fetcher move on to the next source). */
module IndustryFetcher {
  import opened Wrappers
  import opened Text
  import opened Ordering
  import opened Seqs

  /** The 31 first-level Shenwan industries (`VALID_SHENWAN_L1`), in the
      order the source lists them. */
  datatype Industry =
    | Agriculture | Coal | Petrochemical | Steel | NonferrousMetals | BasicChemicals | BuildingMaterials
    | BuildingDecoration | PowerEquipment | Machinery | Defense | Automobiles | Retail | SocialServices
    | Transportation | RealEstate | Utilities | Environmental | Textiles | LightManufacturing | BeautyCare
    | Pharmaceuticals | FoodBeverage | HomeAppliances | Electronics | Computers | Telecom | Media | Banks
    | NonbankFinance | Conglomerate
  {
    /** The label the source writes for this industry. */
    function Name(): string {
      match this
      case Agriculture => "农林牧渔"
      case Coal => "煤炭"
      case Petrochemical => "石油石化"
      case Steel => "钢铁"
      case NonferrousMetals => "有色金属"
      case BasicChemicals => "基础化工"
      case BuildingMaterials => "建筑材料"
      case BuildingDecoration => "建筑装饰"
      case PowerEquipment => "电力设备"
      case Machinery => "机械设备"
      case Defense => "国防军工"
      case Automobiles => "汽车"
      case Retail => "商贸零售"
      case SocialServices => "社会服务"
      case Transportation => "交通运输"
      case RealEstate => "房地产"
      case Utilities => "公用事业"
      case Environmental => "环保"
      case Textiles => "纺织服饰"
      case LightManufacturing => "轻工制造"
      case BeautyCare => "美容护理"
      case Pharmaceuticals => "医药生物"
      case FoodBeverage => "食品饮料"
      case HomeAppliances => "家用电器"
      case Electronics => "电子"
      case Computers => "计算机"
      case Telecom => "通信"
      case Media => "传媒"
      case Banks => "银行"
      case NonbankFinance => "非银金融"
      case Conglomerate => "综合"
    }
  }

  /** `l1 in VALID_SHENWAN_L1` */
  predicate IsValidL1(s: string) {
    exists l: Industry :: l.Name() == s
  }

  /** Every label is a non-empty run of CJK ideographs: it strips to itself and
      is neither the fallback label nor the error label. */
  lemma NameIsLabel(l: Industry)
    ensures |l.Name()| >= 2 && IsStripped(l.Name())
    ensures l.Name() != Unclassified && l.Name() != "错误"
  {
    NameEnds(l);
  }

  /** A label has at least two characters and starts and ends with a CJK
      ideograph, and the two labels with other meanings have three and two
      characters, both different from any label of the same length. */
  lemma NameEnds(l: Industry)
    ensures |l.Name()| >= 2 && l.Name()[0] >= '\U{4E00}' && l.Name()[|l.Name()| - 1] >= '\U{4E00}'
    ensures l.Name() != Unclassified && l.Name() != "错误"
  {
  }

  const Unclassified: string := "未分类"
  const UnknownSource: string := "unknown"
  const BoardSource: string := "eastmoney_industry_board"

  datatype IndustryResult = IndustryResult(level1: string, level2: string, level3: string, industry: string, source: string)

  /** The keys of a classification dictionary: `shenwan_level1`,
      `shenwan_level2`, `shenwan_level3`, `industry` and `source`. */
  datatype Key = Level1Key | Level2Key | Level3Key | IndustryKey | SourceKey

  /** A classification dictionary: the output of `IndustryResult.as_dict()`
      and the entries of the shared classification cache. */
  type Fields = map<Key, string>

  /** `IndustryResult.as_dict()` */
  function AsDict(r: IndustryResult): (d: Fields)
    ensures Level1Key in d && Level2Key in d && Level3Key in d && IndustryKey in d && SourceKey in d
    ensures d[Level1Key] == r.level1 && d[Level2Key] == r.level2 && d[Level3Key] == r.level3
    ensures d[IndustryKey] == r.industry && d[SourceKey] == r.source
  {
    map[Level1Key := r.level1, Level2Key := r.level2, Level3Key := r.level3,
        IndustryKey := r.industry, SourceKey := r.source]
  }

  /** `str(d.get(key, "") or "")`: a missing key reads as the empty string. */
  function Field(d: Fields, key: Key): string {
    if key in d then d[key] else ""
  }

  /** The acceptance rules shared by the cache check and the result check,
      applied to the stripped fields. */
  predicate Acceptable(l1: string, l2: string, l3: string, source: string) {
    var a1, a2, a3, src := Strip(l1), Strip(l2), Strip(l3), Strip(source);
    src != "" && src != "unknown" && src != "error" &&
    a1 != "" && a1 != Unclassified && a1 != "错误" && IsValidL1(a1) &&
    a2 != "" && a3 != ""
  }

  /** `is_cache_entry_valid`: missing fields read as empty strings. */
  predicate IsCacheEntryValid(info: Fields) {
    Acceptable(Field(info, Level1Key), Field(info, Level2Key), Field(info, Level3Key), Field(info, SourceKey))
  }

  /** All five keys are present. */
  predicate HasRequiredKeys(d: Fields) {
    Level1Key in d && Level2Key in d && Level3Key in d && IndustryKey in d && SourceKey in d
  }

  /** `validate_industry_data`: all five keys present and the same rules. */
  predicate ValidateIndustryData(d: Fields) {
    HasRequiredKeys(d) && IsCacheEntryValid(d)
  }

  /** A fetched result passes `validate_industry_data` exactly when its
      dictionary would pass the cache check, which is the acceptance rule on
      the result's own fields. */
  lemma ResultValidIffCacheValid(r: IndustryResult)
    ensures ValidateIndustryData(AsDict(r)) <==> IsCacheEntryValid(AsDict(r))
    ensures ValidateIndustryData(AsDict(r)) <==> Acceptable(r.level1, r.level2, r.level3, r.source)
  {
  }

  /** A dictionary missing one of the five keys never passes `validate_industry_data`. */
  lemma MissingKeyInvalid(d: Fields, k: Key)
    requires k !in d
    ensures !ValidateIndustryData(d)
  {
  }

  /** `_fallback_result(source)` */
  function Fallback(source: string): (r: IndustryResult)
  {
    IndustryResult(Unclassified, Unclassified, Unclassified, Unclassified, source)
  }

  function FallbackDict(): Fields {
    AsDict(Fallback(UnknownSource))
  }

  /** The fallback is never accepted, whatever source it names: it is never
      cached and never mistaken for a real classification. */
  lemma FallbackNeverValid(source: string)
    ensures !IsCacheEntryValid(AsDict(Fallback(source)))
    ensures !ValidateIndustryData(AsDict(Fallback(source)))
  {
    StripStripped(Unclassified);
  }


  // ---- inference of the first-level industry ----

  datatype Rule = Rule(keywords: seq<string>, category: Industry)

  /** `_infer_shenwan_l1`'s table: the first rule one of whose keywords occurs
      in the text gives the first-level industry. */
  const Rules: seq<Rule> := [
    Rule(["银行"], Banks),
    Rule(["证券", "保险", "期货", "信托", "金融"], NonbankFinance),
    Rule(["房地产", "物业"], RealEstate),
    Rule(["医药", "医疗", "生物", "疫苗", "器械"], Pharmaceuticals),
    Rule(["白酒", "啤酒", "葡萄酒", "饮料", "乳业", "食品", "酿酒"], FoodBeverage),
    Rule(["家电", "空调", "冰箱", "厨电"], HomeAppliances),
    Rule(["半导体", "芯片", "元件", "电子", "光学", "面板", "显示"], Electronics),
    Rule(["计算机", "软件", "IT", "信息技术", "云计算", "大数据", "网络安全"], Computers),
    Rule(["通信", "运营商", "光通信", "5G"], Telecom),
    Rule(["传媒", "影视", "游戏", "出版", "广告"], Media),
    Rule(["汽车", "整车", "汽配", "新能源车"], Automobiles),
    Rule(["电池", "光伏", "风电", "电网", "储能", "电力设备", "电气设备"], PowerEquipment),
    Rule(["机械", "机床", "设备"], Machinery),
    Rule(["军工", "航空", "航天", "兵器", "船舶"], Defense),
    Rule(["煤炭"], Coal),
    Rule(["石油", "天然气", "油服"], Petrochemical),
    Rule(["钢铁"], Steel),
    Rule(["有色", "贵金属", "稀土", "锂", "钴", "镍"], NonferrousMetals),
    Rule(["化工", "农药", "化学", "塑料", "橡胶"], BasicChemicals),
    Rule(["建筑材料", "水泥", "玻璃"], BuildingMaterials),
    Rule(["建筑装饰", "装修", "工程"], BuildingDecoration),
    Rule(["商贸", "零售", "百货", "超市", "电商"], Retail),
    Rule(["酒店", "旅游", "餐饮", "景区", "航空服务"], SocialServices),
    Rule(["交通", "运输", "物流", "航运", "港口", "机场", "铁路"], Transportation),
    Rule(["电力", "燃气", "水务", "公用"], Utilities),
    Rule(["环保", "污水", "固废"], Environmental),
    Rule(["纺织", "服装", "鞋帽"], Textiles),
    Rule(["轻工", "造纸", "包装", "家居"], LightManufacturing),
    Rule(["美容", "护理", "化妆品"], BeautyCare),
    Rule(["农", "牧", "渔", "种植"], Agriculture)]

  /** `re.search("k1|k2|...", s)` for literal keywords: one of them occurs in `s`. */
  predicate AnyOccurs(s: string, keywords: seq<string>) {
    exists k :: 0 <= k < |keywords| && Contains(s, keywords[k])
  }

  /** Whether a rule's keywords occur in `s`. */
  function RuleMatches(s: string): Rule -> bool {
    (r: Rule) => AnyOccurs(s, r.keywords)
  }

  /** No rule in `rules` assigns the composite industry. */
  predicate NoComposite(rules: seq<Rule>) {
    forall i :: 0 <= i < |rules| ==> rules[i].category != Conglomerate
  }

  /** The industry of the first rule of `rules` matching `s`, composite when
      none matches. */
  function InferBy(rules: seq<Rule>, s: string): (l1: Industry)
    requires NoComposite(rules)
    ensures l1 == Conglomerate <==> forall i :: 0 <= i < |rules| ==> !AnyOccurs(s, rules[i].keywords)
    ensures l1 != Conglomerate ==> exists i :: 0 <= i < |rules| && rules[i].category == l1 && AnyOccurs(s, rules[i].keywords)
    ensures forall i :: FirstBy(rules, RuleMatches(s), i) ==> l1 == rules[i].category
  {
    var i := FirstIndex(rules, RuleMatches(s), 0);
    FirstIndexFinds(rules, RuleMatches(s));
    FirstIndexNone(rules, RuleMatches(s));
    if i < |rules| then rules[i].category else Conglomerate
  }

  /** `_infer_shenwan_l1`: the industry of the first matching rule, composite
      (`综合`) when none matches. */
  function InferL1(s: string): (l1: Industry)
    ensures l1 == Conglomerate <==> forall i :: 0 <= i < |Rules| ==> !AnyOccurs(s, Rules[i].keywords)
    ensures l1 != Conglomerate ==> exists i :: 0 <= i < |Rules| && Rules[i].category == l1 && AnyOccurs(s, Rules[i].keywords)
    ensures forall i :: FirstBy(Rules, RuleMatches(s), i) ==> l1 == Rules[i].category
  {
    RulesNotComposite();
    InferBy(Rules, s)
  }

  lemma RulesNotComposite()
    ensures NoComposite(Rules)
  {
  }

  /** Rule order matters: any text naming a bank is classified as a bank,
      whatever else it names. */
  lemma BankTakesPrecedence(s: string)
    requires Contains(s, "银行")
    ensures InferL1(s) == Banks
  {
    assert Rules[0].keywords[0] == "银行";
    assert AnyOccurs(s, Rules[0].keywords);
  }

  /** `_clean_industry_text`: strip, collapse whitespace runs to one space,
      drop every "行业" from a text of at most ten characters, strip again. */
  function CleanIndustryText(text: string): (r: string)
    ensures IsStripped(r)
    ensures forall c :: c in r && IsSpace(c) ==> c == ' '
    ensures forall c :: c in r && c != ' ' ==> c in text
  {
    var s := CollapseSpaces(Strip(text));
    var t := if |s| <= 10 then RemoveAll(s, "行业") else s;
    Strip(t)
  }

  /** `_infer_shenwan_levels`: the first level is the one `_infer_shenwan_l1`
      infers from the cleaned text, which fills the second and third levels;
      empty text gives composite on all three. */
  function InferLevels(raw: string): (levels: (string, string, string))
    ensures IsValidL1(levels.0)
    ensures levels.1 == levels.2 && levels.1 != "" && IsStripped(levels.1)
    ensures CleanIndustryText(raw) == "" ==> levels == (Conglomerate.Name(), Conglomerate.Name(), Conglomerate.Name())
    ensures CleanIndustryText(raw) != "" ==> levels.1 == CleanIndustryText(raw)
    ensures CleanIndustryText(raw) != "" ==> levels.0 == InferL1(CleanIndustryText(raw)).Name()
  {
    var industry := CleanIndustryText(raw);
    if industry == "" then
      NameIsLabel(Conglomerate);
      (Conglomerate.Name(), Conglomerate.Name(), Conglomerate.Name())
    else (InferL1(industry).Name(), industry, industry)
  }

  /** Any result built from inferred levels is accepted as long as its source
      is a real one: in particular every board-mapping result is valid. */
  lemma InferredResultAccepted(raw: string, industry: string, source: string)
    requires Strip(source) != "" && Strip(source) != "unknown" && Strip(source) != "error"
    ensures var lv := InferLevels(raw);
            ValidateIndustryData(AsDict(IndustryResult(lv.0, lv.1, lv.2, industry, source)))
  {
    var lv := InferLevels(raw);
    var l: Industry :| l.Name() == lv.0;
    NameIsLabel(l);
    StripStripped(lv.0);
    StripStripped(lv.1);
  }

  lemma BoardResultAccepted(boardName: string)
    ensures ValidateIndustryData(BoardResult(boardName))
  {
    StripStripped(BoardSource);
    InferredResultAccepted(boardName, boardName, BoardSource);
  }

  // ---- East Money identifiers ----

  /** `_to_eastmoney_secid`: market prefix "1." for Shanghai (codes starting
      with 6) and "0." otherwise, only for six-digit codes. */
  function ToEastmoneySecid(code: string): (r: Option<string>)
    ensures r.Some? <==> IsSixDigits(code)
    ensures r.Some? ==> |r.value| == 8 && r.value[2..] == code && r.value[1] == '.'
    ensures r.Some? ==> (r.value[0] == '1' <==> code[0] == '6')
    ensures r.Some? ==> r.value[..2] == (if code[0] == '6' then "1." else "0.")
  {
    if !IsSixDigits(code) then None
    else if code[0] == '6' then Some("1." + code) else Some("0." + code)
  }

  /** `_to_eastmoney_f10_code`: "SH" for codes starting with 6, "SZ" otherwise. */
  function ToEastmoneyF10Code(code: string): (r: Option<string>)
    ensures r.Some? <==> IsSixDigits(code)
    ensures r.Some? ==> |r.value| == 8 && r.value[2..] == code
    ensures r.Some? ==> (r.value[..2] == "SH" <==> code[0] == '6')
    ensures r.Some? ==> (r.value[..2] == "SZ" <==> code[0] != '6')
  {
    if !IsSixDigits(code) then None
    else if code[0] == '6' then Some("SH" + code) else Some("SZ" + code)
  }

  // ---- cache maintenance ----

  /** `purge_invalid_cache_entries`: the cache without its invalid entries, and
      how many were dropped. */
  function PurgeInvalid(cache: map<string, Fields>): (r: (map<string, Fields>, nat))
    ensures forall c :: c in r.0 <==> c in cache && IsCacheEntryValid(cache[c])
    ensures forall c :: c in r.0 ==> r.0[c] == cache[c]
    ensures r.1 == |cache.Keys| - |r.0.Keys|
    ensures r.1 == |set c | c in cache && !IsCacheEntryValid(cache[c])|
  {
    var kept := map c | c in cache && IsCacheEntryValid(cache[c]) :: cache[c];
    var dropped := set c | c in cache && !IsCacheEntryValid(cache[c]);
    assert cache.Keys == kept.Keys + dropped && kept.Keys !! dropped;
    (kept, |cache.Keys| - |kept.Keys|)
  }

  // ---- source order ----

  /** The per-source settings read from the configuration; `None` is a missing key. */
  datatype SourceConfig = SourceConfig(enabled: Option<bool>, weight: Option<int>)

  /** The single-stock sources in declaration order. */
  const DeclaredSources: seq<string> := ["sina_shenwan", "eastmoney_f10", "eastmoney_quote", "tencent_quote", "netease_f10"]

  predicate SourceEnabled(config: map<string, SourceConfig>, name: string) {
    name !in config || config[name].enabled.GetOr(true)
  }

  function SourceWeight(config: map<string, SourceConfig>, name: string): int {
    if name in config then config[name].weight.GetOr(0) else 0
  }

  function WeightOf(config: map<string, SourceConfig>): string -> int {
    n => SourceWeight(config, n)
  }

  function EnabledInOrder(config: map<string, SourceConfig>, names: seq<string>): (r: seq<string>)
    ensures forall n :: n in r <==> n in names && SourceEnabled(config, n)
  {
    if |names| == 0 then []
    else (if SourceEnabled(config, names[0]) then [names[0]] else []) + EnabledInOrder(config, names[1..])
  }

  /** `_build_sources_in_priority_order`: the enabled sources, heaviest weight
      first, sources of equal weight in declaration order. */
  function PriorityOrder(config: map<string, SourceConfig>): (order: seq<string>)
    ensures forall n :: n in order <==> n in DeclaredSources && SourceEnabled(config, n)
    ensures forall i, j :: 0 <= i < j < |order| ==> SourceWeight(config, order[i]) >= SourceWeight(config, order[j])
    ensures forall w :: WithKey(order, WeightOf(config), w) == WithKey(EnabledInOrder(config, DeclaredSources), WeightOf(config), w)
  {
    var enabled := EnabledInOrder(config, DeclaredSources);
    var order := SortByKeyDescending(enabled, WeightOf(config));
    assert forall n :: n in order <==> n in multiset(enabled);
    order
  }

  const ShippedConfig: map<string, SourceConfig> := map[
    "sina_shenwan" := SourceConfig(Some(true), Some(4)),
    "eastmoney_f10" := SourceConfig(Some(true), Some(3)),
    "eastmoney_quote" := SourceConfig(Some(true), Some(2)),
    "tencent_quote" := SourceConfig(Some(true), Some(1)),
    "netease_f10" := SourceConfig(Some(true), Some(0))]

  /** With the shipped configuration's weights (sina_shenwan 4, eastmoney_f10 3,
      eastmoney_quote 2, tencent_quote 1, netease_f10 0) the order is the
      declaration order. */
  lemma ShippedConfigOrder()
    ensures PriorityOrder(ShippedConfig) == DeclaredSources
  {
    ShippedEnabled();
    ShippedWeights();
    SortByKeyDescendingSorted(DeclaredSources, WeightOf(ShippedConfig));
  }

  lemma ShippedEnabled()
    ensures EnabledInOrder(ShippedConfig, DeclaredSources) == DeclaredSources
  {
    assert forall i :: 0 <= i < |DeclaredSources| ==> SourceEnabled(ShippedConfig, DeclaredSources[i]);
    EnabledAll(ShippedConfig, DeclaredSources);
  }

  lemma ShippedWeights()
    ensures forall i, j :: 0 <= i < j < |DeclaredSources| ==>
              WeightOf(ShippedConfig)(DeclaredSources[i]) >= WeightOf(ShippedConfig)(DeclaredSources[j])
  {
    var w := WeightOf(ShippedConfig);
    assert forall i :: 0 <= i < |DeclaredSources| ==> w(DeclaredSources[i]) == 4 - i;
  }

  /** When every name is enabled, nothing is filtered out. */
  lemma {:induction false} EnabledAll(config: map<string, SourceConfig>, names: seq<string>)
    requires forall i :: 0 <= i < |names| ==> SourceEnabled(config, names[i])
    ensures EnabledInOrder(config, names) == names
    decreases |names|
  {
    if |names| > 0 {
      EnabledAll(config, names[1..]);
      assert names == [names[0]] + names[1..];
    }
  }

  // ---- lookups ----

  /** A single-stock source: its name and its fetch, `None` when it yields
      nothing or raises. */
  datatype Source = Source(name: string, fetch: (string, string, string) -> Option<IndustryResult>)

  /** The source's result for the stock exists and passes `accept`. */
  predicate AcceptsBy(accept: Fields -> bool, src: Source, code: string, name: string, base: string) {
    var r := src.fetch(code, name, base);
    r.Some? && accept(AsDict(r.value))
  }

  /** The source's result for the stock exists and passes `validate_industry_data`. */
  predicate Accepts(src: Source, code: string, name: string, base: string) {
    AcceptsBy(ValidateIndustryData, src, code, name, base)
  }

  /** Source `i` is the first whose result passes `accept`. */
  predicate FirstAcceptingBy(accept: Fields -> bool, sources: seq<Source>, i: int, code: string, name: string, base: string) {
    && 0 <= i < |sources| && AcceptsBy(accept, sources[i], code, name, base)
    && forall j :: 0 <= j < i ==> !AcceptsBy(accept, sources[j], code, name, base)
  }

  function AcceptsFn(accept: Fields -> bool, code: string, name: string, base: string): Source -> bool {
    (src: Source) => AcceptsBy(accept, src, code, name, base)
  }

  /** Source `i` is the first whose result passes `validate_industry_data`. */
  predicate FirstAccepting(sources: seq<Source>, i: int, code: string, name: string, base: string) {
    FirstAcceptingBy(ValidateIndustryData, sources, i, code, name, base)
  }

  /** The fetcher's mutable state: the shared cache and the codes every source failed on. */
  datatype FetcherState = FetcherState(cache: map<string, Fields>, failed: set<string>)

  /** Only entries passing `valid` are added or replaced; nothing is removed. */
  predicate GrowsBy(valid: Fields -> bool, before: map<string, Fields>, after: map<string, Fields>) {
    (forall c :: c in before ==> c in after) &&
    (forall c :: c in after ==> (c in before && after[c] == before[c]) || valid(after[c]))
  }

  /** Only valid entries are added or replaced; nothing is removed. */
  predicate CacheGrowsValidly(before: map<string, Fields>, after: map<string, Fields>) {
    GrowsBy(IsCacheEntryValid, before, after)
  }

  /** `get_industry` for a cache check `valid`, a result check `accept` and the
      fallback entry `fallback`. */
  function LookupBy(valid: Fields -> bool, accept: Fields -> bool, fallback: Fields,
                    st: FetcherState, sources: seq<Source>, code: string, name: string, base: string)
    : (r: (Fields, FetcherState))
    requires forall d :: accept(d) ==> valid(d)
    requires !valid(fallback)
    ensures valid(r.0) || r.0 == fallback
    ensures valid(r.0) ==> code in r.1.cache && r.1.cache[code] == r.0
    ensures GrowsBy(valid, st.cache, r.1.cache)
    ensures forall c :: c in r.1.cache && c != code ==> c in st.cache && r.1.cache[c] == st.cache[c]
    ensures r.0 == fallback ==> code in r.1.failed
    ensures st.failed <= r.1.failed <= st.failed + {code}
    ensures code !in st.failed && !(code in st.cache && valid(st.cache[code])) ==>
              (r.0 == fallback <==> forall j :: 0 <= j < |sources| ==> !AcceptsBy(accept, sources[j], code, name, base))
    ensures code in st.cache && valid(st.cache[code]) ==> r == (st.cache[code], st)
    ensures code in st.failed && !(code in st.cache && valid(st.cache[code])) ==> r == (fallback, st)
    ensures code !in st.failed && !(code in st.cache && valid(st.cache[code])) ==>
              forall i :: FirstAcceptingBy(accept, sources, i, code, name, base) ==>
                r.0 == AsDict(sources[i].fetch(code, name, base).value) && r.1 == st.(cache := st.cache[code := r.0])
  {
    if code in st.cache && valid(st.cache[code]) then (st.cache[code], st)
    else if code in st.failed then (fallback, st)
    else
      var p := AcceptsFn(accept, code, name, base);
      var i := FirstIndex(sources, p, 0);
      FirstIndexNone(sources, p);
      if i < |sources| then
        var d := AsDict(sources[i].fetch(code, name, base).value);
        (d, st.(cache := st.cache[code := d]))
      else (fallback, st.(failed := st.failed + {code}))
  }

  /** `get_industry`: a valid cached entry, else the fallback for a code that
      already failed, else the first accepted source result (cached), else the
      fallback with the code recorded as failed. */
  function GetIndustry(st: FetcherState, sources: seq<Source>, code: string, name: string, base: string): (r: (Fields, FetcherState))
    ensures IsCacheEntryValid(r.0) || r.0 == FallbackDict()
    ensures IsCacheEntryValid(r.0) ==> code in r.1.cache && r.1.cache[code] == r.0
    ensures CacheGrowsValidly(st.cache, r.1.cache)
    ensures forall c :: c in r.1.cache && c != code ==> c in st.cache && r.1.cache[c] == st.cache[c]
    ensures r.0 == FallbackDict() ==> code in r.1.failed
    ensures st.failed <= r.1.failed <= st.failed + {code}
    ensures code !in st.failed && !(code in st.cache && IsCacheEntryValid(st.cache[code])) ==>
              (r.0 == FallbackDict() <==> forall j :: 0 <= j < |sources| ==> !Accepts(sources[j], code, name, base))
    ensures code in st.cache && IsCacheEntryValid(st.cache[code]) ==> r == (st.cache[code], st)
    ensures code in st.failed && !(code in st.cache && IsCacheEntryValid(st.cache[code])) ==> r == (FallbackDict(), st)
    ensures code !in st.failed && !(code in st.cache && IsCacheEntryValid(st.cache[code])) ==>
              forall i :: FirstAccepting(sources, i, code, name, base) ==>
                r.0 == AsDict(sources[i].fetch(code, name, base).value) && r.1 == st.(cache := st.cache[code := r.0])
  {
    FallbackNeverValid(UnknownSource);
    LookupBy(IsCacheEntryValid, ValidateIndustryData, FallbackDict(), st, sources, code, name, base)
  }

  /** Asking twice gives the same answer and leaves the state as the first call
      left it: a success is served from the cache, a failure from the failure memo. */
  lemma GetIndustryStable(st: FetcherState, sources: seq<Source>, code: string, name: string, base: string)
    ensures var (d1, st1) := GetIndustry(st, sources, code, name, base);
            GetIndustry(st1, sources, code, name, base) == (d1, st1)
  {
    FallbackNeverValid(UnknownSource);
  }

  /** A stock as the batch lookup receives it; an empty code stands for a missing one. */
  datatype Stock = Stock(code: string, name: string, industry: string)

  /** An industry board of the batch source and its member codes. */
  datatype Board = Board(name: string, members: seq<string>)

  /** The `eastmoney_industry_board` settings: `enabled` (default true) and
      `min_batch_size` (default 300). */
  datatype BoardConfig = BoardConfig(enabled: Option<bool>, minBatchSize: Option<int>)

  predicate UseBoardMapping(cfg: BoardConfig, pending: nat) {
    cfg.enabled.GetOr(true) && pending >= cfg.minBatchSize.GetOr(300)
  }

  /** The non-empty codes of the stocks. */
  function Codes(stocks: seq<Stock>): (r: set<string>)
    ensures "" !in r
    ensures forall k :: 0 <= k < |stocks| && stocks[k].code != "" ==> stocks[k].code in r
  {
    set k | 0 <= k < |stocks| && stocks[k].code != "" :: stocks[k].code
  }

  /** What the batch lookup keeps true throughout, for a cache check `valid`:
      every code is either resolved (with a valid result, also cached) or still
      pending, and codes validly cached at the start keep their cached entry.
      The phases below are stated for any cache check `valid` and any result
      check `accept` stricter than it; the lookup uses `is_cache_entry_valid`
      and `validate_industry_data`. */
  predicate BatchInv(valid: Fields -> bool, codes: set<string>, initial: map<string, Fields>,
                     results: map<string, Fields>, remaining: set<string>, cache: map<string, Fields>)
  {
    "" !in codes && results.Keys !! remaining && results.Keys + remaining == codes &&
    (forall c :: c in results ==> valid(results[c]) && c in cache && cache[c] == results[c]) &&
    GrowsBy(valid, initial, cache) &&
    (forall c :: c in codes && c in initial && valid(initial[c]) ==> c in results && results[c] == initial[c])
  }

  /** The result the board mapping gives each member of a board. */
  function BoardResult(boardName: string): (d: Fields)
    ensures Field(d, SourceKey) == BoardSource
  {
    var lv := InferLevels(boardName);
    AsDict(IndustryResult(lv.0, lv.1, lv.2, boardName, BoardSource))
  }

  /** Board `b` is the first board listing `c` whose result passes `accept`,
      and its result is `d`. */
  predicate BoardGives(accept: Fields -> bool, boardResult: string -> Fields, boards: seq<Board>, b: int, c: string, d: Fields) {
    && 0 <= b < |boards| && c in boards[b].members && d == boardResult(boards[b].name) && accept(d)
    && forall b' :: 0 <= b' < b && c in boards[b'].members ==> !accept(boardResult(boards[b'].name))
  }

  /** Some board gives `c` the result `d`. */
  ghost predicate FromBoard(accept: Fields -> bool, boardResult: string -> Fields, boards: seq<Board>, c: string, d: Fields) {
    exists b :: BoardGives(accept, boardResult, boards, b, c, d)
  }

  /** Single-stock source `j` is the first (skipping the board source) to
      accept code `c`, for stock `k`, the first stock with that code it
      accepts, and its result is `d`. */
  predicate SourceGives(accept: Fields -> bool, sources: seq<Source>, stocks: seq<Stock>, j: int, k: int, c: string, d: Fields) {
    && 0 <= j < |sources| && sources[j].name != BoardSource && 0 <= k < |stocks| && stocks[k].code == c
    && AcceptsBy(accept, sources[j], c, stocks[k].name, stocks[k].industry)
    && d == AsDict(sources[j].fetch(c, stocks[k].name, stocks[k].industry).value)
    && (forall k' :: 0 <= k' < k && stocks[k'].code == c ==> !AcceptsBy(accept, sources[j], c, stocks[k'].name, stocks[k'].industry))
    && (forall i, k' :: 0 <= i < j && sources[i].name != BoardSource && 0 <= k' < |stocks| && stocks[k'].code == c ==>
          !AcceptsBy(accept, sources[i], c, stocks[k'].name, stocks[k'].industry))
  }

  /** Some single-stock source gives `c` the result `d`. */
  ghost predicate FromSource(accept: Fields -> bool, sources: seq<Source>, stocks: seq<Stock>, c: string, d: Fields) {
    exists j, k :: SourceGives(accept, sources, stocks, j, k, c, d)
  }

  /** The board mapping's pass over one board's members: every member still
      pending gets the board's result `res`, if `res` is accepted. */
  method MemberPass(valid: Fields -> bool, accept: Fields -> bool, codes: set<string>, initial: map<string, Fields>,
                    members: seq<string>, res: Fields,
                    results0: map<string, Fields>, remaining0: set<string>, cache0: map<string, Fields>)
    returns (results: map<string, Fields>, remaining: set<string>, cache: map<string, Fields>)
    requires forall d :: accept(d) ==> valid(d)
    requires BatchInv(valid, codes, initial, results0, remaining0, cache0)
    ensures BatchInv(valid, codes, initial, results, remaining, cache)
    ensures remaining <= remaining0
    ensures forall c :: c in remaining0 - remaining ==> results[c] == res && c in members && accept(res)
    ensures forall c :: c in results0 ==> c in results && results[c] == results0[c]
    ensures accept(res) ==> forall m :: 0 <= m < |members| ==> members[m] !in remaining
  {
    results, remaining, cache := results0, remaining0, cache0;
    var m := 0;
    while m < |members|
      invariant 0 <= m <= |members|
      invariant BatchInv(valid, codes, initial, results, remaining, cache)
      invariant remaining <= remaining0
      invariant forall c :: c in remaining0 - remaining ==> results[c] == res && c in members[..m] && accept(res)
      invariant forall c :: c in results0 ==> c in results && results[c] == results0[c]
      invariant accept(res) ==> forall m' :: 0 <= m' < m ==> members[m'] !in remaining
    {
      var code := members[m];
      if code in remaining && accept(res) {
        results := results[code := res];
        cache := cache[code := res];
        remaining := remaining - {code};
      }
      m := m + 1;
    }
  }

  /** No board listing `c` has an accepted result. */
  predicate NoBoardAccepts(accept: Fields -> bool, boardResult: string -> Fields, boards: seq<Board>, c: string) {
    forall b :: 0 <= b < |boards| && c in boards[b].members ==> !accept(boardResult(boards[b].name))
  }

  /** What the board mapping has done after visiting boards `0..b-1`: every
      code it resolved has the result of the first board listing it with an
      accepted result, and no code listed by one of those boards with an
      accepted result is still pending. */
  ghost predicate BoardsSoFar(accept: Fields -> bool, boardResult: string -> Fields, boards: seq<Board>, b: int,
                        remaining0: set<string>, results: map<string, Fields>, remaining: set<string>) {
    && (forall c :: c in remaining0 - remaining ==> c in results && FromBoard(accept, boardResult, boards, c, results[c]))
    && (forall b', c :: 0 <= b' < b && b' < |boards| && c in boards[b'].members && accept(boardResult(boards[b'].name)) ==> c !in remaining)
  }

  /** The board mapping's visit to board `b`. */
  method BoardStep(valid: Fields -> bool, accept: Fields -> bool, boardResult: string -> Fields,
                   codes: set<string>, initial: map<string, Fields>, boards: seq<Board>, b: nat, remaining0: set<string>,
                   results0: map<string, Fields>, pending: set<string>, cache0: map<string, Fields>)
    returns (results: map<string, Fields>, remaining: set<string>, cache: map<string, Fields>)
    requires b < |boards| && forall d :: accept(d) ==> valid(d)
    requires BatchInv(valid, codes, initial, results0, pending, cache0) && pending <= remaining0
    requires BoardsSoFar(accept, boardResult, boards, b, remaining0, results0, pending)
    ensures BatchInv(valid, codes, initial, results, remaining, cache) && remaining <= pending
    ensures BoardsSoFar(accept, boardResult, boards, b + 1, remaining0, results, remaining)
    ensures forall c :: c in results0 ==> c in results && results[c] == results0[c]
  {
    if |boards[b].members| == 0 {
      return results0, pending, cache0;
    }
    var res := boardResult(boards[b].name);
    results, remaining, cache := MemberPass(valid, accept, codes, initial, boards[b].members, res, results0, pending, cache0);
    forall c | c in pending - remaining
      ensures BoardGives(accept, boardResult, boards, b, c, results[c])
    {
    }
  }

  /** `_batch_from_eastmoney_industry_board`, run inside the batch lookup:
      boards are visited in order until nothing is pending, and each board with
      members gives its still-pending members the result `boardResult(name)`.
      A code resolved here gets the result of the first board listing it whose
      result is accepted; no code listed by a board with an accepted result is
      left pending. */
  method BoardPhase(valid: Fields -> bool, accept: Fields -> bool, boardResult: string -> Fields,
                    codes: set<string>, initial: map<string, Fields>, boards: seq<Board>,
                    results0: map<string, Fields>, remaining0: set<string>, cache0: map<string, Fields>)
    returns (results: map<string, Fields>, remaining: set<string>, cache: map<string, Fields>)
    requires forall d :: accept(d) ==> valid(d)
    requires BatchInv(valid, codes, initial, results0, remaining0, cache0)
    ensures BatchInv(valid, codes, initial, results, remaining, cache)
    ensures remaining <= remaining0
    ensures forall c :: c in remaining0 - remaining ==> c in results && FromBoard(accept, boardResult, boards, c, results[c])
    ensures forall c :: c in results0 ==> c in results && results[c] == results0[c]
    ensures forall c :: c in remaining ==> NoBoardAccepts(accept, boardResult, boards, c)
  {
    results, remaining, cache := results0, remaining0, cache0;
    var b := 0;
    while b < |boards| && remaining != {}
      invariant 0 <= b <= |boards|
      invariant BatchInv(valid, codes, initial, results, remaining, cache)
      invariant remaining <= remaining0
      invariant BoardsSoFar(accept, boardResult, boards, b, remaining0, results, remaining)
      invariant forall c :: c in results0 ==> c in results && results[c] == results0[c]
    {
      results, remaining, cache := BoardStep(valid, accept, boardResult, codes, initial, boards, b, remaining0, results, remaining, cache);
      b := b + 1;
    }
  }

  /** No single-stock source before `j` accepts any stock whose code is in `pending`. */
  predicate EarlierRejected(accept: Fields -> bool, sources: seq<Source>, stocks: seq<Stock>, j: int, pending: set<string>) {
    forall i, k :: (0 <= i < j && i < |sources| && 0 <= k < |stocks| && stocks[k].code in pending &&
                    sources[i].name != BoardSource) ==> !AcceptsBy(accept, sources[i], stocks[k].code, stocks[k].name, stocks[k].industry)
  }

  /** Every code resolved since `remaining0` has the result of the first
      single-stock source accepting it. */
  ghost predicate SourcesSoFar(accept: Fields -> bool, sources: seq<Source>, stocks: seq<Stock>,
                               remaining0: set<string>, results: map<string, Fields>, remaining: set<string>) {
    forall c :: c in remaining0 - remaining ==> c in results && FromSource(accept, sources, stocks, c, results[c])
  }

  /** Source `src` accepts none of the stocks before `k` whose code is in `pending`. */
  predicate StocksRejected(accept: Fields -> bool, src: Source, stocks: seq<Stock>, k: int, pending: set<string>) {
    forall k' :: 0 <= k' < k && k' < |stocks| && stocks[k'].code in pending ==>
      !AcceptsBy(accept, src, stocks[k'].code, stocks[k'].name, stocks[k'].industry)
  }

  /** Source `j` asked about stock `k`, if its code is still pending. */
  method StockStep(valid: Fields -> bool, accept: Fields -> bool, codes: set<string>, initial: map<string, Fields>,
                   stocks: seq<Stock>, sources: seq<Source>, j: nat, k: nat, remaining0: set<string>,
                   results0: map<string, Fields>, pending: set<string>, cache0: map<string, Fields>)
    returns (results: map<string, Fields>, remaining: set<string>, cache: map<string, Fields>)
    requires j < |sources| && sources[j].name != BoardSource && k < |stocks|
    requires forall d :: accept(d) ==> valid(d)
    requires BatchInv(valid, codes, initial, results0, pending, cache0) && pending <= remaining0
    requires EarlierRejected(accept, sources, stocks, j, remaining0)
    requires StocksRejected(accept, sources[j], stocks, k, pending)
    requires SourcesSoFar(accept, sources, stocks, remaining0, results0, pending)
    ensures BatchInv(valid, codes, initial, results, remaining, cache) && remaining <= pending
    ensures StocksRejected(accept, sources[j], stocks, k + 1, remaining)
    ensures SourcesSoFar(accept, sources, stocks, remaining0, results, remaining)
    ensures forall c :: c in results0 ==> c in results && results[c] == results0[c]
  {
    results, remaining, cache := results0, pending, cache0;
    var s := stocks[k];
    if s.code != "" && s.code in pending {
      var r := sources[j].fetch(s.code, s.name, s.industry);
      if r.Some? && accept(AsDict(r.value)) {
        assert SourceGives(accept, sources, stocks, j, k, s.code, AsDict(r.value));
        results := results[s.code := AsDict(r.value)];
        cache := cache[s.code := AsDict(r.value)];
        remaining := remaining - {s.code};
      }
    }
  }

  /** Single-stock source `j`'s pass over the stocks in input order: every
      stock whose code is still pending is asked for, and an accepted result
      resolves the code. */
  method SourcePass(valid: Fields -> bool, accept: Fields -> bool, codes: set<string>, initial: map<string, Fields>,
                    stocks: seq<Stock>, sources: seq<Source>, j: nat,
                    results0: map<string, Fields>, remaining0: set<string>, cache0: map<string, Fields>)
    returns (results: map<string, Fields>, remaining: set<string>, cache: map<string, Fields>)
    requires j < |sources| && sources[j].name != BoardSource
    requires forall d :: accept(d) ==> valid(d)
    requires BatchInv(valid, codes, initial, results0, remaining0, cache0)
    requires EarlierRejected(accept, sources, stocks, j, remaining0)
    ensures BatchInv(valid, codes, initial, results, remaining, cache)
    ensures remaining <= remaining0
    ensures EarlierRejected(accept, sources, stocks, j + 1, remaining)
    ensures SourcesSoFar(accept, sources, stocks, remaining0, results, remaining)
    ensures forall c :: c in results0 ==> c in results && results[c] == results0[c]
  {
    results, remaining, cache := results0, remaining0, cache0;
    var k := 0;
    while k < |stocks|
      invariant 0 <= k <= |stocks|
      invariant BatchInv(valid, codes, initial, results, remaining, cache)
      invariant remaining <= remaining0
      invariant StocksRejected(accept, sources[j], stocks, k, remaining)
      invariant SourcesSoFar(accept, sources, stocks, remaining0, results, remaining)
      invariant forall c :: c in results0 ==> c in results && results[c] == results0[c]
    {
      results, remaining, cache := StockStep(valid, accept, codes, initial, stocks, sources, j, k, remaining0, results, remaining, cache);
      k := k + 1;
    }
  }

  /** The rounds over the single-stock sources, in order, skipping the board
      source, until nothing is pending.  A code resolved here has the result
      of the first source accepting it; a code left pending is accepted by no
      single-stock source. */
  method SourcesPhase(valid: Fields -> bool, accept: Fields -> bool, codes: set<string>, initial: map<string, Fields>,
                      stocks: seq<Stock>, sources: seq<Source>,
                      results0: map<string, Fields>, remaining0: set<string>, cache0: map<string, Fields>)
    returns (results: map<string, Fields>, remaining: set<string>, cache: map<string, Fields>)
    requires forall d :: accept(d) ==> valid(d)
    requires BatchInv(valid, codes, initial, results0, remaining0, cache0)
    ensures BatchInv(valid, codes, initial, results, remaining, cache)
    ensures remaining <= remaining0
    ensures EarlierRejected(accept, sources, stocks, |sources|, remaining)
    ensures SourcesSoFar(accept, sources, stocks, remaining0, results, remaining)
    ensures forall c :: c in results0 ==> c in results && results[c] == results0[c]
  {
    results, remaining, cache := results0, remaining0, cache0;
    var j := 0;
    while j < |sources| && remaining != {}
      invariant 0 <= j <= |sources|
      invariant BatchInv(valid, codes, initial, results, remaining, cache)
      invariant remaining <= remaining0
      invariant EarlierRejected(accept, sources, stocks, j, remaining)
      invariant SourcesSoFar(accept, sources, stocks, remaining0, results, remaining)
      invariant forall c :: c in results0 ==> c in results && results[c] == results0[c]
    {
      if sources[j].name != BoardSource {
        ghost var pending := remaining;
        ghost var before := results;
        results, remaining, cache := SourcePass(valid, accept, codes, initial, stocks, sources, j, results, remaining, cache);
        assert forall c :: c in remaining0 - remaining ==> c in remaining0 - pending || c in pending - remaining;
      }
      j := j + 1;
    }
  }

  /** The codes without a cached entry passing `valid`. */
  function Pending(valid: Fields -> bool, codes: set<string>, cache: map<string, Fields>): set<string> {
    set c | c in codes && !(c in cache && valid(cache[c]))
  }

  /** The first step of the batch lookup: the codes whose cached entry passes
      `valid` are resolved from the cache, the others are pending. */
  function CachedPhase(valid: Fields -> bool, codes: set<string>, cache: map<string, Fields>)
    : (r: (map<string, Fields>, set<string>))
    requires "" !in codes
    ensures BatchInv(valid, codes, cache, r.0, r.1, cache)
    ensures r.1 == Pending(valid, codes, cache)
  {
    var results := map c | c in codes && c in cache && valid(cache[c]) :: cache[c];
    (results, codes - results.Keys)
  }

  /** The last step of the batch lookup: every code still pending gets the
      fallback entry. */
  method FillFallback(valid: Fields -> bool, fallback: Fields, codes: set<string>, initial: map<string, Fields>,
                      results0: map<string, Fields>, remaining: set<string>, cache: map<string, Fields>)
    returns (results: map<string, Fields>)
    requires !valid(fallback)
    requires BatchInv(valid, codes, initial, results0, remaining, cache)
    ensures results.Keys == codes
    ensures forall c :: c in results ==> valid(results[c]) || results[c] == fallback
    ensures forall c :: c in results && valid(results[c]) ==> c in cache && cache[c] == results[c]
    ensures forall c :: c in results && c in initial && valid(initial[c]) ==> results[c] == initial[c]
    ensures forall c :: c in results && results[c] == fallback ==> c in remaining
    ensures forall c :: c in results0 ==> results[c] == results0[c]
    ensures forall c :: c in remaining ==> results[c] == fallback
  {
    results := results0 + map c | c in remaining :: fallback;
    assert forall c :: c in results ==> (c in results0 && results[c] == results0[c]) || (c in remaining && results[c] == fallback);
  }

  /** Where a batch result for a code not validly cached comes from: the
      fallback (when the board mapping runs, only for a code no board with an
      accepted result lists), or (when the board mapping runs) the first board
      listing the code with an accepted result, or else the first single-stock
      source accepting it. */
  ghost predicate Resolved(accept: Fields -> bool, boardResult: string -> Fields, fallback: Fields, useBoards: bool,
                           boards: seq<Board>, stocks: seq<Stock>, sources: seq<Source>, c: string, d: Fields) {
    || (d == fallback && (useBoards ==> NoBoardAccepts(accept, boardResult, boards, c)))
    || (useBoards && FromBoard(accept, boardResult, boards, c, d))
    || ((useBoards ==> NoBoardAccepts(accept, boardResult, boards, c)) && FromSource(accept, sources, stocks, c, d))
  }

  /** After the board and source phases, every code resolved since `pending`
      has its result from a board or from a source. */
  lemma PhasesResolved(accept: Fields -> bool, boardResult: string -> Fields, fallback: Fields, useBoards: bool,
                       boards: seq<Board>, stocks: seq<Stock>, sources: seq<Source>,
                       pending: set<string>, afterBoards: set<string>, remaining: set<string>,
                       boardResults: map<string, Fields>, results: map<string, Fields>)
    requires afterBoards <= pending && remaining <= afterBoards
    requires useBoards ==> forall c :: c in pending - afterBoards ==> c in boardResults && FromBoard(accept, boardResult, boards, c, boardResults[c])
    requires !useBoards ==> afterBoards == pending
    requires useBoards ==> forall c :: c in afterBoards ==> NoBoardAccepts(accept, boardResult, boards, c)
    requires forall c :: c in boardResults ==> c in results && results[c] == boardResults[c]
    requires SourcesSoFar(accept, sources, stocks, afterBoards, results, remaining)
    ensures forall c :: c in pending - remaining ==>
              c in results && Resolved(accept, boardResult, fallback, useBoards, boards, stocks, sources, c, results[c])
  {
    forall c | c in pending - remaining
      ensures c in results && Resolved(accept, boardResult, fallback, useBoards, boards, stocks, sources, c, results[c])
    {
      if c in afterBoards {
        assert c in afterBoards - remaining;
      } else {
        assert c in boardResults;
      }
    }
  }

  /** The batch lookup for a cache check `valid`, a result check `accept`,
      the board mapping's result `boardResult` and the fallback entry `fallback`. */
  method BatchBy(valid: Fields -> bool, accept: Fields -> bool, boardResult: string -> Fields, fallback: Fields,
                 st: FetcherState, stocks: seq<Stock>, boardCfg: BoardConfig, boards: seq<Board>, sources: seq<Source>)
    returns (results: map<string, Fields>, st': FetcherState)
    requires forall d :: accept(d) ==> valid(d)
    requires !valid(fallback)
    ensures results.Keys == Codes(stocks)
    ensures forall c :: c in results ==> valid(results[c]) || results[c] == fallback
    ensures forall c :: c in results && valid(results[c]) ==> c in st'.cache && st'.cache[c] == results[c]
    ensures forall c :: c in results && c in st.cache && valid(st.cache[c]) ==> results[c] == st.cache[c]
    ensures GrowsBy(valid, st.cache, st'.cache)
    ensures st'.failed == st.failed
    ensures forall c :: c in results && results[c] == fallback ==>
              forall j, k :: (0 <= j < |sources| && 0 <= k < |stocks| && stocks[k].code == c &&
                              sources[j].name != BoardSource) ==> !AcceptsBy(accept, sources[j], c, stocks[k].name, stocks[k].industry)
    ensures forall c :: c in results && results[c] == fallback &&
                        UseBoardMapping(boardCfg, |Pending(valid, Codes(stocks), st.cache)|) ==>
              NoBoardAccepts(accept, boardResult, boards, c)
    ensures forall c :: c in results && !(c in st.cache && valid(st.cache[c])) ==>
              Resolved(accept, boardResult, fallback, UseBoardMapping(boardCfg, |Pending(valid, Codes(stocks), st.cache)|),
                       boards, stocks, sources, c, results[c])
  {
    var codes := Codes(stocks);
    var cache := st.cache;
    var cached := CachedPhase(valid, codes, cache);
    var remaining := cached.1;
    results := cached.0;
    var useBoards := UseBoardMapping(boardCfg, |remaining|);
    ghost var pending := remaining;
    ghost var afterBoards := remaining;
    if remaining != {} {
      if useBoards {
        results, remaining, cache := BoardPhase(valid, accept, boardResult, codes, st.cache, boards, results, remaining, cache);
      }
      afterBoards := remaining;
      ghost var boardResults := results;
      results, remaining, cache := SourcesPhase(valid, accept, codes, st.cache, stocks, sources, results, remaining, cache);
      PhasesResolved(accept, boardResult, fallback, useBoards, boards, stocks, sources, pending, afterBoards, remaining, boardResults, results);
    }
    assert useBoards ==> forall c :: c in remaining ==> NoBoardAccepts(accept, boardResult, boards, c);
    ghost var beforeFill := results;
    results := FillFallback(valid, fallback, codes, st.cache, results, remaining, cache);
    forall c | c in results && !(c in st.cache && valid(st.cache[c]))
      ensures Resolved(accept, boardResult, fallback, useBoards, boards, stocks, sources, c, results[c])
    {
      assert c in pending;
      if c !in remaining {
        assert c in beforeFill && results[c] == beforeFill[c];
      }
    }
    st' := st.(cache := cache);
  }

  /** `batch_get_industries`: valid cached entries first; then, for a large
      enough batch, the board mapping; then each single-stock source in turn
      over the codes still pending; the fallback for whatever is left.  A
      result not served from the cache is the fallback, the first accepted
      board result listing the code, or the first accepted single-stock
      source result for it. */
  method BatchGetIndustries(st: FetcherState, stocks: seq<Stock>, boardCfg: BoardConfig, boards: seq<Board>,
                            sources: seq<Source>)
    returns (results: map<string, Fields>, st': FetcherState)
    ensures results.Keys == Codes(stocks)
    ensures forall c :: c in results ==> IsCacheEntryValid(results[c]) || results[c] == FallbackDict()
    ensures forall c :: c in results && IsCacheEntryValid(results[c]) ==> c in st'.cache && st'.cache[c] == results[c]
    ensures forall c :: c in results && c in st.cache && IsCacheEntryValid(st.cache[c]) ==> results[c] == st.cache[c]
    ensures CacheGrowsValidly(st.cache, st'.cache)
    ensures st'.failed == st.failed
    ensures forall c :: c in results && results[c] == FallbackDict() ==>
              forall j, k :: (0 <= j < |sources| && 0 <= k < |stocks| && stocks[k].code == c &&
                              sources[j].name != BoardSource) ==> !Accepts(sources[j], c, stocks[k].name, stocks[k].industry)
    ensures forall c :: c in results && results[c] == FallbackDict() &&
                        UseBoardMapping(boardCfg, |Pending(IsCacheEntryValid, Codes(stocks), st.cache)|) ==>
              NoBoardAccepts(ValidateIndustryData, BoardResult, boards, c)
    ensures forall c :: c in results && !(c in st.cache && IsCacheEntryValid(st.cache[c])) ==>
              Resolved(ValidateIndustryData, BoardResult, FallbackDict(),
                       UseBoardMapping(boardCfg, |Pending(IsCacheEntryValid, Codes(stocks), st.cache)|),
                       boards, stocks, sources, c, results[c])
  {
    FallbackNeverValid(UnknownSource);
    results, st' := BatchBy(IsCacheEntryValid, ValidateIndustryData, BoardResult, FallbackDict(), st, stocks, boardCfg, boards, sources);
  }
}
