/** `financial_query_service.py`: turning what a user typed into query
    parameters (stock codes, report dates, subject, unit, market), the
    errors that reject a query, and the table `execute_query` builds from
    the collector's answers.  The collector is the oracle `fetch`; the
    cached last query and the DataFrame copies are not modelled. */
module FinancialQuery {
  import opened Wrappers
  import opened Text
  import opened Seqs
  import opened Records
  import opened Calendar

  // ---- parameter values ----

  /** A parameter as the service receives it: absent or `None`, a string,
      or a list/tuple/set of strings (iterated in the order given). */
  datatype Input = Absent | Line(s: string) | Items(xs: seq<string>)

  /** Python truthiness of an `Input`. */
  predicate Given(v: Input) {
    match v
    case Absent => false
    case Line(s) => |s| > 0
    case Items(xs) => |xs| > 0
  }

  /** `a or b` */
  function Either(a: Input, b: Input): (r: Input)
    ensures Given(a) ==> r == a
    ensures !Given(a) ==> r == b
  {
    if Given(a) then a else b
  }

  /** `a or b` for an optional string and a string. */
  function OrText(a: Option<string>, b: string): (r: string)
    ensures a.Some? && |a.value| > 0 ==> r == a.value
    ensures (a.None? || |a.value| == 0) ==> r == b
  {
    if a.Some? && |a.value| > 0 then a.value else b
  }

  /** The class `[\s,;，；]` the service splits free text on. */
  predicate IsListSep(c: char) {
    IsSpace(c) || c == ',' || c == ';' || c == '，' || c == '；'
  }

  /** The tokens of an input: `re.split(r"[\s,;，；]+", s)` for a string, the
      items themselves for a list. */
  function Tokens(v: Input): seq<string> {
    match v
    case Absent => []
    case Line(s) => SplitRuns(s, IsListSep)
    case Items(xs) => xs
  }

  // ---- _parse_stock_codes ----

  /** `re.sub(r"^(sh|sz|bj)", "", t, flags=re.IGNORECASE)` */
  function DropExchangePrefix(t: string): (r: string)
    ensures |t| >= 2 && Lower(t[..2]) in {"sh", "sz", "bj"} ==> r == t[2..]
    ensures !(|t| >= 2 && Lower(t[..2]) in {"sh", "sz", "bj"}) ==> r == t
  {
    if |t| >= 2 && Lower(t[..2]) in {"sh", "sz", "bj"} then t[2..] else t
  }

  /** One token: stripped, exchange prefix removed, kept when six digits remain. */
  function CleanToken(t: string): (r: Option<string>)
    ensures r.Some? ==> IsSixDigits(r.value)
  {
    var u := DropExchangePrefix(Strip(t));
    if IsSixDigits(u) then Some(u) else None
  }

  /** The codes of the tokens that clean to one, in token order. */
  function CleanTokens(ts: seq<string>): (codes: seq<string>)
    ensures |codes| <= |ts|
    ensures forall i :: 0 <= i < |codes| ==> IsSixDigits(codes[i])
  {
    var codes := FilterMap(ts, CleanToken);
    assert forall i :: 0 <= i < |codes| ==> IsSixDigits(codes[i]) by {
      forall i | 0 <= i < |codes| ensures IsSixDigits(codes[i]) {
        FilterMapContents(ts, CleanToken, codes[i]);
      }
    }
    codes
  }

  /** `_parse_stock_codes` */
  function ParseStockCodes(v: Input): (codes: seq<string>)
    ensures forall i :: 0 <= i < |codes| ==> IsSixDigits(codes[i])
    ensures v.Absent? ==> codes == []
  {
    CleanTokens(Tokens(v))
  }

  /** A six-digit string has no separator, space or prefix to remove. */
  lemma CleanSixDigits(c: string)
    requires IsSixDigits(c)
    ensures CleanToken(c) == Some(c)
  {
    assert forall x :: x in c ==> !IsSpace(x) by {
      forall x | x in c ensures !IsSpace(x) {
        var k :| 0 <= k < |c| && c[k] == x;
        assert IsDigit(c[k]);
      }
    }
    StripNoSpace(c);
    assert IsDigit(c[0]) && IsDigit(c[1]);
    assert Lower(c[..2]) == c[..2] by {
      assert Lower(c[..2])[0] == c[0] && Lower(c[..2])[1] == c[1];
    }
  }

  /** The codes of six-digit strings are the strings themselves. */
  lemma CleanTokensSixDigits(codes: seq<string>)
    requires forall i :: 0 <= i < |codes| ==> IsSixDigits(codes[i])
    ensures FilterMap(codes, CleanToken) == codes
  {
    forall i | 0 <= i < |codes| ensures CleanToken(codes[i]) == Some(codes[i]) {
      CleanSixDigits(codes[i]);
    }
    FilterMapKeepsAll(codes, CleanToken);
  }

  /** Six-digit codes joined by any run of separators (`"600519, 000001"`)
      parse back to the same codes, in the same order. */
  lemma ParseJoinedCodes(codes: seq<string>, sep: string)
    requires forall i :: 0 <= i < |codes| ==> IsSixDigits(codes[i])
    requires |sep| > 0 && forall k :: 0 <= k < |sep| ==> IsListSep(sep[k])
    ensures ParseStockCodes(Line(Join(codes, sep))) == codes
  {
    if |codes| == 0 {
      assert SplitRuns("", IsListSep) == [""];
      assert !IsSixDigits(DropExchangePrefix(Strip("")));
    } else {
      forall i | 0 <= i < |codes|
        ensures |codes[i]| > 0 && forall k :: 0 <= k < |codes[i]| ==> !IsListSep(codes[i][k])
      {
        assert forall k :: 0 <= k < |codes[i]| ==> IsDigit(codes[i][k]);
      }
      SplitRunsJoin(codes, sep, IsListSep);
      CleanTokensSixDigits(codes);
    }
  }

  // ---- _normalize_report_date(s) ----

  /** A string starting `dddd-dd-dd` (`re.match(r"^(\d{4}-\d{2}-\d{2})", v)`). */
  predicate DatePrefix(w: string) {
    |w| >= 10 && AllDigits(w[..4]) && w[4] == '-' && AllDigits(w[5..7]) && w[7] == '-' && AllDigits(w[8..10])
  }

  /** `_normalize_report_date`: an eight-digit calendar date becomes
      `YYYY-MM-DD` (an impossible one gives `None`); otherwise, with `/` read
      as `-`, a `YYYY-MM-DD` date is rewritten, a `YYYY-MM` month gives its
      first day (not its last, as the comment beside it says), and anything
      else starting `dddd-dd-dd` is cut to those ten characters unchecked. */
  function NormalizeReportDate(value: string): (r: Option<string>)
    ensures r.Some? ==> |r.value| > 0 && '/' !in r.value
  {
    var v := Strip(value);
    if |v| == 0 then None
    else if |v| == 8 && AllDigits(v) then
      match Strptime(CompactFormat, v)
      case None => None
      case Some(d) => RenderNoSlash(d); Some(Render(d))
    else
      var w := ReplaceChar(v, '/', '-');
      match Strptime(DashFormat, w)
      case Some(d) => RenderNoSlash(d); Some(Render(d))
      case None =>
        match Strptime(MonthFormat, w)
        case Some(d) => RenderNoSlash(Date(d.year, d.month, 1)); Some(Render(Date(d.year, d.month, 1)))
        case None =>
          if DatePrefix(w) then
            assert forall k :: 0 <= k < 10 ==> w[..10][k] == w[k] && w[k] != '/';
            Some(w[..10])
          else None
  }

  /** `%Y-%m-%d` output is digits and dashes. */
  lemma RenderNoSlash(d: Date)
    requires IsValid(d)
    ensures |Render(d)| > 0 && '/' !in Render(d)
  {
    var s := Render(d);
    assert forall k :: 0 <= k < |s| ==> IsDigit(s[k]) || s[k] == '-';
  }

  /** A date written as `%Y-%m-%d` is already normal. */
  lemma NormalizeRendered(d: Date)
    requires IsValid(d) && d.year >= 1000
    ensures NormalizeReportDate(Render(d)) == Some(Render(d))
  {
    var s := Render(d);
    DecimalStringLength(d.year);
    assert |s| == 10 && s[4] == '-';
    assert forall k :: 0 <= k < |s| ==> IsDigit(s[k]) || s[k] == '-';
    NoSpaceNoSlash(s);
    StrptimeRender(d);
  }

  /** Digits and dashes only: stripping and the `/` rewrite leave it alone. */
  lemma NoSpaceNoSlash(s: string)
    requires forall k :: 0 <= k < |s| ==> IsDigit(s[k]) || s[k] == '-'
    ensures Strip(s) == s && ReplaceChar(s, '/', '-') == s
  {
    assert forall x :: x in s ==> !IsSpace(x) by {
      forall x | x in s ensures !IsSpace(x) {
        var k :| 0 <= k < |s| && s[k] == x;
      }
    }
    StripNoSpace(s);
    assert ReplaceChar(s, '/', '-') == s;
  }

  /** `20240331` becomes `2024-03-31`; an eight-digit string naming no
      calendar day (`20230229`) is rejected. */
  lemma NormalizeCompact(y: nat, m: nat, dd: nat)
    requires 1000 <= y <= 9999 && 1 <= m <= 12 && 1 <= dd <= 31
    ensures NormalizeReportDate(Layout(y, m, dd, "")) ==
              if IsValid(Date(y, m, dd)) then Some(Render(Date(y, m, dd))) else None
  {
    var s := Layout(y, m, dd, "");
    DecimalStringLength(y);
    assert |s| == 8 && AllDigits(s);
    NoSpaceNoSlash(s);
    StrptimeCompactFields(y, m, dd);
  }

  /** `2024/03/31` is read as `2024-03-31`. */
  lemma NormalizeSlashed(d: Date)
    requires IsValid(d) && d.year >= 1000
    ensures NormalizeReportDate(Layout(d.year, d.month, d.day, "/")) == Some(Render(d))
  {
    var s := Layout(d.year, d.month, d.day, "/");
    DecimalStringLength(d.year);
    SlashedIsDashed(DecimalString(d.year), Pad2(d.month), Pad2(d.day));
    StrptimeRender(d);
    NormalizeViaDash(s, d);
  }

  /** Digits separated by `/` hold no whitespace and read, with `/` as `-`,
      as the same digits separated by `-`. */
  lemma SlashedIsDashed(a: string, b: string, c: string)
    requires AllDigits(a) && AllDigits(b) && AllDigits(c)
    ensures Strip(a + "/" + b + "/" + c) == a + "/" + b + "/" + c
    ensures ReplaceChar(a + "/" + b + "/" + c, '/', '-') == a + "-" + b + "-" + c
  {
    var s := a + "/" + b + "/" + c;
    var t := a + "-" + b + "-" + c;
    assert forall k :: 0 <= k < |s| ==> IsDigit(s[k]) || s[k] == '/' by {
      forall k | 0 <= k < |s| ensures IsDigit(s[k]) || s[k] == '/' {
        if k < |a| {
          assert s[k] == a[k];
        } else if |a| < k <= |a| + |b| {
          assert s[k] == b[k - |a| - 1];
        } else if |a| + |b| + 1 < k {
          assert s[k] == c[k - |a| - |b| - 2];
        }
      }
    }
    forall x | x in s ensures !IsSpace(x) {
      var k :| 0 <= k < |s| && s[k] == x;
    }
    StripNoSpace(s);
    forall k | 0 <= k < |s| ensures ReplaceChar(s, '/', '-')[k] == t[k] {
      if k < |a| {
        assert s[k] == a[k] == t[k];
      } else if |a| < k <= |a| + |b| {
        assert s[k] == b[k - |a| - 1] == t[k];
      } else if |a| + |b| + 1 < k {
        assert s[k] == c[k - |a| - |b| - 2] == t[k];
      }
    }
  }

  /** Text of ten characters that strips to itself and reads, with `/` as
      `-`, as the `%Y-%m-%d` form of `d` normalises to that form. */
  lemma NormalizeViaDash(s: string, d: Date)
    requires |s| == 10 && Strip(s) == s && IsValid(d)
    requires Strptime(DashFormat, ReplaceChar(s, '/', '-')) == Some(d)
    ensures NormalizeReportDate(s) == Some(Render(d))
  {
  }

  /** `2024-03` gives the first day of the month, `2024-03-01`. */
  lemma NormalizeMonth(y: nat, m: nat)
    requires 1000 <= y <= 9999 && 1 <= m <= 12
    ensures NormalizeReportDate(DecimalString(y) + "-" + Pad2(m)) == Some(Render(Date(y, m, 1)))
  {
    var s := DecimalString(y) + "-" + Pad2(m);
    DecimalStringLength(y);
    assert |s| == 7;
    assert forall k :: 0 <= k < |s| ==> IsDigit(s[k]) || s[k] == '-';
    NoSpaceNoSlash(s);
    StrptimeMonthFields(y, m);
  }

  /** `2024-02-30` passes unchanged: `strptime` rejects it, but the
      `dddd-dd-dd` fallback returns the text without a calendar check. */
  lemma NormalizeImpossibleDay(y: nat, m: nat, dd: nat)
    requires 1000 <= y <= 9999 && 1 <= m <= 12 && 1 <= dd <= 31
    requires !IsValid(Date(y, m, dd))
    ensures NormalizeReportDate(Layout(y, m, dd, "-")) == Some(Layout(y, m, dd, "-"))
  {
    var s := Layout(y, m, dd, "-");
    DecimalStringLength(y);
    assert |s| == 10 && s[4] == '-' && s[7] == '-';
    assert forall k :: 0 <= k < |s| ==> IsDigit(s[k]) || s[k] == '-';
    NoSpaceNoSlash(s);
    StrptimeDashFields(y, m, dd);
    StrptimeMonthOnLayout(y, m, dd);
    assert s[..4] == DecimalString(y) && s[5..7] == Pad2(m) && s[8..10] == Pad2(dd);
    assert s[..10] == s;
  }

  /** The normalised values of the tokens, `None`s dropped, in token order. */
  function NormalizedTokens(ts: seq<string>): (ds: seq<string>)
    ensures |ds| <= |ts|
    ensures forall i :: 0 <= i < |ds| ==> |ds[i]| > 0 && '/' !in ds[i]
  {
    var ds := FilterMap(ts, NormalizeReportDate);
    assert forall i :: 0 <= i < |ds| ==> |ds[i]| > 0 && '/' !in ds[i] by {
      forall i | 0 <= i < |ds| ensures |ds[i]| > 0 && '/' !in ds[i] {
        FilterMapContents(ts, NormalizeReportDate, ds[i]);
      }
    }
    ds
  }

  function Same(): string -> string {
    s => s
  }

  function Always(): string -> bool {
    s => true
  }

  /** `_normalize_report_dates`: the normalised tokens, first occurrence of
      each kept. */
  function NormalizeReportDates(v: Input): (ds: seq<string>)
    ensures forall i, j :: 0 <= i < j < |ds| ==> ds[i] != ds[j]
    ensures forall i :: 0 <= i < |ds| ==> |ds[i]| > 0 && '/' !in ds[i]
  {
    var ns := NormalizedTokens(Tokens(v));
    var ds := Dedup(ns, Same(), Always());
    assert forall i :: 0 <= i < |ds| ==> ds[i] in ns by {
      forall i | 0 <= i < |ds| ensures ds[i] in ns {
        DedupSubsetKeys(ns, ds[i]);
      }
    }
    ds
  }

  /** A kept date is one of the normalised tokens. */
  lemma DedupSubsetKeys(ns: seq<string>, d: string)
    requires d in Dedup(ns, Same(), Always())
    ensures d in ns
  {
    DedupOnlyFirst(ns, Same(), Always(), d);
    var i :| FirstWithKey(ns, Same(), d, i);
    assert ns[i] == d;
  }

  /** The dates kept are exactly the normalised tokens, each once, in the
      order of their first occurrence. */
  lemma NormalizeReportDatesContents(v: Input)
    ensures forall d :: d in NormalizeReportDates(v) <==> exists t :: t in Tokens(v) && NormalizeReportDate(t) == Some(d)
    ensures Subseq(NormalizeReportDates(v), NormalizedTokens(Tokens(v)))
  {
    var ns := NormalizedTokens(Tokens(v));
    var ds := NormalizeReportDates(v);
    DedupSubseq(ns, Same(), Always());
    forall d ensures d in ds <==> exists t :: t in Tokens(v) && NormalizeReportDate(t) == Some(d) {
      FilterMapContents(Tokens(v), NormalizeReportDate, d);
      if d in ns {
        var i0 := FirstIndex(ns, EqualTo(d), 0);
        assert ns[i0] == d;
        DedupKeepsFirst(ns, Same(), Always(), i0);
      }
      if d in ds {
        DedupSubsetKeys(ns, d);
      }
    }
  }

  function EqualTo(d: string): string -> bool {
    s => s == d
  }

  // ---- _infer_market ----

  const Shanghai := "上海"
  const Shenzhen := "深圳"
  const Beijing := "北交所"
  const UnknownMarket := "未知"
  const AllMarkets := "全部"

  /** `_infer_market` */
  function InferMarket(code: string): (m: string)
    ensures m in {Shanghai, Shenzhen, Beijing, UnknownMarket}
    ensures m == Shanghai <==> |code| > 0 && code[0] == '6'
    ensures m == Shenzhen <==> |code| > 0 && code[0] in {'0', '3'}
    ensures m == Beijing <==> |code| > 0 && code[0] in {'4', '8'}
  {
    if |code| > 0 && code[0] == '6' then Shanghai
    else if |code| > 0 && (code[0] == '0' || code[0] == '3') then Shenzhen
    else if |code| > 0 && (code[0] == '4' || code[0] == '8') then Beijing
    else UnknownMarket
  }

  /** The market filter of `_normalize_params`. */
  function InMarket(market: string): string -> bool {
    c => market == AllMarkets || InferMarket(c) == market
  }

  // ---- subjects ----

  datatype SubjectOption = SubjectOption(key: string, caption: string, unit: Option<string>)

  const DefaultSubjects: seq<SubjectOption> := [
    SubjectOption("INVEST_REALESTATE", "投资性房地产", Some("万元")),
    SubjectOption("FIXED_ASSET", "固定资产", Some("万元")),
    SubjectOption("CIP", "在建工程", Some("万元")),
    SubjectOption("USERIGHT_ASSET", "使用权资产", Some("万元")),
    SubjectOption("INTANGIBLE_ASSET", "无形资产", Some("万元")),
    SubjectOption("TOTAL_ASSETS", "资产总计", Some("万元")),
    SubjectOption("TOTAL_LIABILITIES", "负债合计", Some("万元")),
    SubjectOption("TOTAL_OWNER_EQUITY", "所有者权益合计", Some("万元"))
  ]

  /** `subject_options or DEFAULT_SUBJECT_OPTIONS` */
  function SubjectsOf(given: seq<SubjectOption>): (opts: seq<SubjectOption>)
    ensures |opts| > 0
    ensures |given| > 0 ==> opts == given
  {
    if |given| > 0 then given else DefaultSubjects
  }

  /** The last option satisfying `p`: what a dict built by a comprehension
      over the options holds for the key `p` selects. */
  function LastWith(opts: seq<SubjectOption>, p: SubjectOption -> bool): (r: Option<SubjectOption>)
    ensures r.Some? ==> r.value in opts && p(r.value)
    ensures r.None? <==> forall i :: 0 <= i < |opts| ==> !p(opts[i])
    ensures r.Some? <==> LastIndex(opts, p) >= 0
    ensures r.Some? ==> r.value == opts[LastIndex(opts, p)]
  {
    if |opts| == 0 then None
    else if p(opts[|opts| - 1]) then Some(opts[|opts| - 1])
    else LastWith(opts[..|opts| - 1], p)
  }

  function KeyIs(k: string): SubjectOption -> bool {
    (o: SubjectOption) => Upper(o.key) == k
  }

  function LabelIs(l: string): SubjectOption -> bool {
    (o: SubjectOption) => o.caption == l
  }

  datatype QueryError =
    | NoSubject
    | UnknownSubject(subject: string)
    | NoReportDates
    | TooManyReportDates
    | BadUnit
    | BadMarket
    | NoStockCodes
    | NoCodesInMarket
    | UnsupportedFormat(format: string)

  /** `_resolve_subject`: the key, upper-cased, first; then the label.  Both
      lookups go through dictionaries built over the options, so among options
      sharing a key (or a label) the last one is returned. */
  function ResolveSubject(opts: seq<SubjectOption>, subject: string): (r: Result<SubjectOption, QueryError>)
    ensures r.Success? ==> r.value in opts
    ensures r.Success? ==> Upper(r.value.key) == Upper(subject) || r.value.caption == subject
    ensures r.Failure? <==> forall i :: 0 <= i < |opts| ==> Upper(opts[i].key) != Upper(subject) && opts[i].caption != subject
    ensures r.Failure? ==> r.error == UnknownSubject(subject)
    ensures (exists i :: 0 <= i < |opts| && Upper(opts[i].key) == Upper(subject)) ==> r.Success? && Upper(r.value.key) == Upper(subject)
    ensures var k := LastIndex(opts, KeyIs(Upper(subject)));
            k >= 0 ==> r == Success(opts[k])
    ensures var k, l := LastIndex(opts, KeyIs(Upper(subject))), LastIndex(opts, LabelIs(subject));
            k < 0 && l >= 0 ==> r == Success(opts[l])
  {
    match LastWith(opts, KeyIs(Upper(subject)))
    case Some(o) => Success(o)
    case None =>
      match LastWith(opts, LabelIs(subject))
      case Some(o) => Success(o)
      case None => Failure(UnknownSubject(subject))
  }

  // ---- _build_stock_items ----

  datatype StockItem = StockItem(code: string, name: string, market: string)

  /** The item of a code when the stock list says nothing about it. */
  function PlainItem(c: string): StockItem {
    StockItem(c, "", InferMarket(c))
  }

  /** `str(v or "").strip()` */
  function TextOf(v: Cell): string {
    Strip(if Truthy(v) then Show(v) else "")
  }

  /** The stripped code of a stock-list entry. */
  function ListedCode(s: Record): string {
    TextOf(Get(s, Code))
  }

  /** The item a stock-list entry gives: its code, stripped name, and its
      market or else the inferred one. */
  function ItemOf(s: Record): (item: StockItem)
    ensures item.code == ListedCode(s)
  {
    var m := Get(s, Market);
    StockItem(ListedCode(s), TextOf(Get(s, Name)), Strip(if Truthy(m) then Show(m) else InferMarket(ListedCode(s))))
  }

  function CodeIs(c: string): Record -> bool {
    s => ListedCode(s) == c
  }

  /** `code_to_info`: one entry per listed stock with a non-blank code; a
      later entry for a code replaces an earlier one. */
  function InfoIndex(list: seq<Record>): (index: map<string, StockItem>)
    ensures forall c :: c in index ==> |c| > 0 && index[c].code == c
  {
    if |list| == 0 then map[]
    else
      var init := InfoIndex(list[..|list| - 1]);
      var s := list[|list| - 1];
      if |ListedCode(s)| > 0 then init[ListedCode(s) := ItemOf(s)] else init
  }

  /** The index holds a code exactly when some entry lists it. */
  lemma {:induction false} InfoIndexHas(list: seq<Record>, c: string)
    ensures c in InfoIndex(list) <==> |c| > 0 && LastIndex(list, CodeIs(c)) >= 0
  {
    if |list| > 0 {
      var init := list[..|list| - 1];
      InfoIndexHas(init, c);
      if !CodeIs(c)(list[|list| - 1]) {
        assert LastIndex(list, CodeIs(c)) == LastIndex(init, CodeIs(c));
      }
    }
  }

  /** A code in the index carries the item of the last entry listing it. */
  lemma {:induction false} InfoIndexLastWins(list: seq<Record>, c: string)
    requires c in InfoIndex(list)
    ensures LastIndex(list, CodeIs(c)) >= 0
    ensures InfoIndex(list)[c] == ItemOf(list[LastIndex(list, CodeIs(c))])
  {
    InfoIndexHas(list, c);
    var init := list[..|list| - 1];
    var s := list[|list| - 1];
    if !CodeIs(c)(s) {
      assert LastIndex(list, CodeIs(c)) == LastIndex(init, CodeIs(c));
      assert InfoIndex(list)[c] == InfoIndex(init)[c];
      InfoIndexLastWins(init, c);
      PrefixIndex(list, init, LastIndex(init, CodeIs(c)));
    }
  }

  /** An element of a prefix is the element of the whole at the same index. */
  lemma PrefixIndex<T>(list: seq<T>, init: seq<T>, j: int)
    requires |init| <= |list| && init == list[..|init|] && 0 <= j < |init|
    ensures list[j] == init[j]
  {
  }

  /** `_build_stock_items`: without enrichment, or when fetching the stock
      list raised (`stockList == None`), each code gets an empty name and its
      inferred market. */
  function BuildStockItems(codes: seq<string>, enrich: bool, stockList: Option<seq<Record>>): (items: seq<StockItem>)
    ensures |items| == |codes|
    ensures forall i :: 0 <= i < |codes| ==> items[i].code == codes[i]
    ensures !enrich || stockList.None? ==> forall i :: 0 <= i < |codes| ==> items[i] == PlainItem(codes[i])
    ensures enrich && stockList.Some? ==>
              forall i :: 0 <= i < |codes| ==>
                items[i] == (if codes[i] in InfoIndex(stockList.value) then InfoIndex(stockList.value)[codes[i]] else PlainItem(codes[i]))
  {
    var index := if enrich && stockList.Some? then InfoIndex(stockList.value) else map[];
    seq(|codes|, i requires 0 <= i < |codes| => if codes[i] in index then index[codes[i]] else PlainItem(codes[i]))
  }

  // ---- _normalize_params ----

  /** The keys `_normalize_params` reads (`subject`/`indicator`,
      `report_dates`/`dates`, `stock_codes`/`stocks` are alternatives). */
  datatype QueryParams = QueryParams(
    subject: Option<string>, indicator: Option<string>,
    reportDates: Input, dates: Input,
    unit: Option<string>, market: Option<string>,
    stockCodes: Input, stocks: Input,
    enrichStockInfo: bool, returnFormat: Option<string>)

  datatype Normalized = Normalized(
    indicatorKey: string, indicatorLabel: string, reportDates: seq<string>,
    unit: string, unitFactor: real, market: string, stocks: seq<StockItem>, returnFormat: string)

  const Units: set<string> := {"元", "万元"}
  const Markets: set<string> := {AllMarkets, Shanghai, Shenzhen, Beijing}

  function SubjectInput(p: QueryParams): string {
    Strip(OrText(p.subject, OrText(p.indicator, "")))
  }

  function DatesOf(p: QueryParams): seq<string> {
    NormalizeReportDates(Either(p.reportDates, p.dates))
  }

  function UnitOf(p: QueryParams, o: SubjectOption): string {
    Strip(OrText(p.unit, OrText(o.unit, "万元")))
  }

  function MarketOf(p: QueryParams): string {
    Strip(OrText(p.market, AllMarkets))
  }

  function CodesOf(p: QueryParams): seq<string> {
    ParseStockCodes(Either(p.stockCodes, p.stocks))
  }

  /** The de-duplicated, market-filtered codes: a code is marked seen before
      the market test, which cannot matter since equal codes share a market. */
  function SelectCodes(codes: seq<string>, market: string): (r: seq<string>)
    ensures forall i, j :: 0 <= i < j < |r| ==> r[i] != r[j]
    ensures forall i :: 0 <= i < |r| ==> market == AllMarkets || InferMarket(r[i]) == market
  {
    var r := Dedup(codes, Same(), InMarket(market));
    assert forall i :: 0 <= i < |r| ==> InMarket(market)(Same()(r[i]));
    r
  }

  /** The selection keeps each code of the market once, first occurrence
      first, and nothing else. */
  lemma SelectCodesContents(codes: seq<string>, market: string)
    ensures forall c :: c in SelectCodes(codes, market) <==> c in codes && (market == AllMarkets || InferMarket(c) == market)
    ensures Subseq(SelectCodes(codes, market), codes)
  {
    var r := SelectCodes(codes, market);
    DedupSubseq(codes, Same(), InMarket(market));
    forall c | c in codes && InMarket(market)(c) ensures c in r {
      var i0 := FirstIndex(codes, EqualTo(c), 0);
      assert codes[i0] == c;
      DedupKeepsFirst(codes, Same(), InMarket(market), i0);
    }
    forall c | c in r ensures c in codes {
      DedupOnlyFirst(codes, Same(), InMarket(market), c);
      var i :| FirstWithKey(codes, Same(), c, i);
      assert codes[i] == c;
    }
  }

  /** `_normalize_params`; `stockList` is what `collector.get_stock_list()`
      gives (`None` when it raises), consulted only with `enrich_stock_info`. */
  function NormalizeParams(p: QueryParams, opts: seq<SubjectOption>, stockList: Option<seq<Record>>): (r: Result<Normalized, QueryError>)
    ensures r.Success? ==> 1 <= |r.value.reportDates| <= 4 && r.value.reportDates == DatesOf(p)
    ensures r.Success? ==> r.value.unit in Units && r.value.unitFactor == (if r.value.unit == "元" then 1.0 else 10000.0)
    ensures r.Success? ==> r.value.market in Markets && r.value.market == MarketOf(p)
    ensures r.Success? ==> |r.value.stocks| > 0
    ensures r.Success? ==>
              var selected := SelectCodes(CodesOf(p), MarketOf(p));
              |r.value.stocks| == |selected| && forall i :: 0 <= i < |selected| ==> r.value.stocks[i].code == selected[i]
    ensures r == Failure(NoSubject) <==> |SubjectInput(p)| == 0
    ensures r == Failure(NoStockCodes) ==> |CodesOf(p)| == 0
    ensures r == Failure(TooManyReportDates) ==> |DatesOf(p)| > 4
    ensures r == Failure(NoCodesInMarket) ==> |CodesOf(p)| > 0 && |SelectCodes(CodesOf(p), MarketOf(p))| == 0
  {
    var subject := SubjectInput(p);
    if |subject| == 0 then Failure(NoSubject)
    else match ResolveSubject(opts, subject)
      case Failure(e) => Failure(e)
      case Success(o) =>
        var dates := DatesOf(p);
        if |dates| == 0 then Failure(NoReportDates)
        else if |dates| > 4 then Failure(TooManyReportDates)
        else
          var unit := UnitOf(p, o);
          if unit !in Units then Failure(BadUnit)
          else
            var market := MarketOf(p);
            if market !in Markets then Failure(BadMarket)
            else
              var codes := CodesOf(p);
              if |codes| == 0 then Failure(NoStockCodes)
              else
                var selected := SelectCodes(codes, market);
                if |selected| == 0 then Failure(NoCodesInMarket)
                else
                  Success(Normalized(Upper(o.key), o.caption, dates, unit, if unit == "元" then 1.0 else 10000.0,
                                     market, BuildStockItems(selected, p.enrichStockInfo, stockList),
                                     Lower(Strip(OrText(p.returnFormat, "dataframe")))))
  }

  /** A query is accepted exactly when every check passes. */
  lemma NormalizeParamsAccepts(p: QueryParams, opts: seq<SubjectOption>, stockList: Option<seq<Record>>)
    ensures NormalizeParams(p, opts, stockList).Success? <==>
              && |SubjectInput(p)| > 0
              && ResolveSubject(opts, SubjectInput(p)).Success?
              && 1 <= |DatesOf(p)| <= 4
              && UnitOf(p, ResolveSubject(opts, SubjectInput(p)).value) in Units
              && MarketOf(p) in Markets
              && |SelectCodes(CodesOf(p), MarketOf(p))| > 0
  {
    if |CodesOf(p)| == 0 {
      assert SelectCodes(CodesOf(p), MarketOf(p)) == [];
    }
  }

  // ---- execute_query ----

  /** `f"{d}/{indicator_label}({unit})"` */
  function Header(d: string, caption: string, unit: string): string {
    d + "/" + caption + "(" + unit + ")"
  }

  /** The three fixed columns. */
  const FixedColumns: seq<string> := ["stock_code", "stock_name", "market"]

  /** `column_order`: the fixed columns, then one per report date in order. */
  function ColumnOrder(dates: seq<string>, caption: string, unit: string): (cols: seq<string>)
    ensures |cols| == 3 + |dates|
    ensures cols[..3] == FixedColumns
    ensures forall i :: 0 <= i < |dates| ==> cols[3 + i] == Header(dates[i], caption, unit)
  {
    FixedColumns + seq(|dates|, i requires 0 <= i < |dates| => Header(dates[i], caption, unit))
  }

  /** Distinct report dates give distinct column names, none of them a
      fixed column, so the row layout is unambiguous. */
  lemma ColumnsDistinct(dates: seq<string>, caption: string, unit: string)
    requires forall i, j :: 0 <= i < j < |dates| ==> dates[i] != dates[j]
    ensures forall i, j :: 0 <= i < j < |ColumnOrder(dates, caption, unit)| ==> ColumnOrder(dates, caption, unit)[i] != ColumnOrder(dates, caption, unit)[j]
  {
    var cols := ColumnOrder(dates, caption, unit);
    forall i, j | 0 <= i < j < |cols| ensures cols[i] != cols[j] {
      ColumnPairDistinct(dates, caption, unit, i, j);
    }
  }

  lemma ColumnPairDistinct(dates: seq<string>, caption: string, unit: string, i: nat, j: nat)
    requires forall i, j :: 0 <= i < j < |dates| ==> dates[i] != dates[j]
    requires i < j < 3 + |dates|
    ensures ColumnOrder(dates, caption, unit)[i] != ColumnOrder(dates, caption, unit)[j]
  {
    var cols := ColumnOrder(dates, caption, unit);
    if i >= 3 {
      HeaderInjective(dates[i - 3], dates[j - 3], caption, unit);
    } else if j >= 3 {
      assert cols[i] == FixedColumns[i];
      HeaderNotFixed(dates[j - 3], caption, unit);
    } else {
      assert cols[i] == FixedColumns[i] && cols[j] == FixedColumns[j];
      assert FixedColumns[0][6] == 'c' && FixedColumns[1][6] == 'n' && |FixedColumns[2]| == 6;
    }
  }

  /** The date can be read back from its column name. */
  lemma HeaderInjective(a: string, b: string, caption: string, unit: string)
    ensures Header(a, caption, unit) == Header(b, caption, unit) ==> a == b
  {
    var suffix := "/" + caption + "(" + unit + ")";
    assert Header(a, caption, unit) == a + suffix && Header(b, caption, unit) == b + suffix;
    if Header(a, caption, unit) == Header(b, caption, unit) {
      assert a == (a + suffix)[..|a|] && b == (b + suffix)[..|b|];
    }
  }

  /** A value column is never one of the fixed columns: it contains `/`. */
  lemma HeaderNotFixed(d: string, caption: string, unit: string)
    ensures Header(d, caption, unit) !in FixedColumns
  {
    var h := Header(d, caption, unit);
    assert h[|d|] == '/';
    assert forall f :: f in FixedColumns ==> '/' !in f;
  }

  /** `_to_float` of the service: `None` for `None`, blank text, `nan` or
      `none`; numbers (and booleans) as they are; other text with thousands
      separators removed and handed to `float()`. */
  function QueryToFloat(v: Cell, parse: string -> Option<real>): (r: Option<real>)
    ensures v.Null? ==> r.None?
    ensures v.Num? ==> r == Some(v.x)
  {
    match v
    case Null => None
    case Flag(b) => Some(if b then 1.0 else 0.0)
    case Num(x, _) => Some(x)
    case _ =>
      var s := Strip(Show(v));
      if |s| == 0 || Lower(s) in {"nan", "none"} then None
      else parse(RemoveAll(s, ","))
  }

  datatype Row = Row(code: string, name: string, market: string, values: seq<Option<real>>)

  /** What `query_balance_sheet_indicator(code, key, dates)` answers for a
      stock: a dict from report date to value, or `None` when it raises. */
  type Fetch = (string, string, seq<string>) -> Option<map<string, Cell>>

  /** One row: each report date's value converted and divided by the unit
      factor; a raising collector leaves every value `None`. */
  function BuildRow(s: StockItem, key: string, dates: seq<string>, factor: real, fetch: Fetch, parse: string -> Option<real>): (row: Row)
    requires factor > 0.0
    ensures row.code == s.code && row.name == s.name && row.market == s.market
    ensures |row.values| == |dates|
    ensures fetch(s.code, key, dates).None? ==> forall i :: 0 <= i < |dates| ==> row.values[i].None?
    ensures forall i :: 0 <= i < |dates| ==>
              (row.values[i].Some? <==>
                 && fetch(s.code, key, dates).Some?
                 && dates[i] in fetch(s.code, key, dates).value
                 && QueryToFloat(fetch(s.code, key, dates).value[dates[i]], parse).Some?)
    ensures forall i :: 0 <= i < |dates| && row.values[i].Some? ==>
              row.values[i].value == QueryToFloat(fetch(s.code, key, dates).value[dates[i]], parse).value / factor
  {
    var got := fetch(s.code, key, dates);
    var answers: map<string, Cell> := if got.Some? then got.value else map[];
    Row(s.code, s.name, s.market,
        seq(|dates|, i requires 0 <= i < |dates| =>
          match QueryToFloat(if dates[i] in answers then answers[dates[i]] else Null, parse)
          case None => None
          case Some(x) => Some(x / factor)))
  }

  /** The codes whose fetch raised, in row order (`meta["warnings"]`). */
  function Warnings(stocks: seq<StockItem>, key: string, dates: seq<string>, fetch: Fetch): (w: seq<string>)
    ensures |w| <= |stocks|
    ensures forall c :: c in w <==> exists i :: 0 <= i < |stocks| && stocks[i].code == c && fetch(c, key, dates).None?
  {
    if |stocks| == 0 then []
    else
      var init := Warnings(stocks[..|stocks| - 1], key, dates, fetch);
      var s := stocks[|stocks| - 1];
      assert forall i :: 0 <= i < |stocks| - 1 ==> stocks[..|stocks| - 1][i] == stocks[i];
      if fetch(s.code, key, dates).None? then init + [s.code] else init
  }

  datatype DataShape = FrameData | ListData

  datatype Meta = Meta(indicatorKey: string, indicatorLabel: string, reportDates: seq<string>, unit: string, warnings: seq<string>)

  datatype QueryResult = QueryResult(rows: seq<Row>, columnOrder: seq<string>, columnHeaders: map<string, string>, meta: Meta, data: DataShape)

  /** `column_headers`: Chinese titles for the fixed columns, each value
      column titled by itself. */
  function ColumnHeaders(valueColumns: seq<string>): (h: map<string, string>)
    ensures forall c :: c in valueColumns ==> c in h && h[c] == c
  {
    if |valueColumns| == 0 then map["stock_code" := "股票代码", "stock_name" := "股票名称", "market" := "市场"]
    else
      var c := valueColumns[|valueColumns| - 1];
      ColumnHeaders(valueColumns[..|valueColumns| - 1])[c := c]
  }

  /** `_convert_result_format`: `dataframe` as is, `list` as records, any
      other format a failure. */
  function ConvertResultFormat(result: QueryResult, format: string): (r: Result<QueryResult, QueryError>)
    ensures r.Success? <==> format in {"dataframe", "list"}
    ensures r.Success? ==> r.value.rows == result.rows && r.value.columnOrder == result.columnOrder && r.value.meta == result.meta
    ensures format == "dataframe" ==> r == Success(result)
    ensures format == "list" ==> r.Success? && r.value.data == ListData
    ensures r.Failure? ==> r.error == UnsupportedFormat(format)
  {
    if format == "dataframe" then Success(result)
    else if format == "list" then Success(result.(data := ListData))
    else Failure(UnsupportedFormat(format))
  }

  /** The table of a normalised query, before the format conversion. */
  function Tabulate(n: Normalized, fetch: Fetch, parse: string -> Option<real>): (t: QueryResult)
    requires n.unitFactor > 0.0
    ensures |t.rows| == |n.stocks|
    ensures forall i :: 0 <= i < |n.stocks| ==> t.rows[i] == BuildRow(n.stocks[i], n.indicatorKey, n.reportDates, n.unitFactor, fetch, parse)
    ensures t.columnOrder == ColumnOrder(n.reportDates, n.indicatorLabel, n.unit)
    ensures t.meta.warnings == Warnings(n.stocks, n.indicatorKey, n.reportDates, fetch)
    ensures t.data == FrameData
  {
    var cols := ColumnOrder(n.reportDates, n.indicatorLabel, n.unit);
    var rows := seq(|n.stocks|, i requires 0 <= i < |n.stocks| =>
                  BuildRow(n.stocks[i], n.indicatorKey, n.reportDates, n.unitFactor, fetch, parse));
    QueryResult(rows, cols, ColumnHeaders(cols[3..]),
                Meta(n.indicatorKey, n.indicatorLabel, n.reportDates, n.unit,
                     Warnings(n.stocks, n.indicatorKey, n.reportDates, fetch)),
                FrameData)
  }

  /** `execute_query`: a rejected parameter set or format is a failure;
      otherwise one row per selected stock, in selection order, with one
      value per report date. */
  function ExecuteQuery(p: QueryParams, opts: seq<SubjectOption>, stockList: Option<seq<Record>>,
                        fetch: Fetch, parse: string -> Option<real>): (r: Result<QueryResult, QueryError>)
    ensures NormalizeParams(p, opts, stockList).Failure? ==> r == Failure(NormalizeParams(p, opts, stockList).error)
    ensures NormalizeParams(p, opts, stockList).Success? ==>
              (r.Success? <==> NormalizeParams(p, opts, stockList).value.returnFormat in {"dataframe", "list"})
    ensures r.Success? ==>
              var n := NormalizeParams(p, opts, stockList).value;
              && |r.value.rows| == |n.stocks|
              && (forall i :: 0 <= i < |n.stocks| ==> r.value.rows[i] == BuildRow(n.stocks[i], n.indicatorKey, n.reportDates, n.unitFactor, fetch, parse))
              && r.value.columnOrder == ColumnOrder(n.reportDates, n.indicatorLabel, n.unit)
              && r.value.meta.warnings == Warnings(n.stocks, n.indicatorKey, n.reportDates, fetch)
  {
    match NormalizeParams(p, opts, stockList)
    case Failure(e) => Failure(e)
    case Success(n) => ConvertResultFormat(Tabulate(n, fetch, parse), n.returnFormat)
  }

  /** Every successful query has pairwise distinct column names. */
  lemma QueryColumnsDistinct(p: QueryParams, opts: seq<SubjectOption>, stockList: Option<seq<Record>>,
                             fetch: Fetch, parse: string -> Option<real>)
    requires ExecuteQuery(p, opts, stockList, fetch, parse).Success?
    ensures var cols := ExecuteQuery(p, opts, stockList, fetch, parse).value.columnOrder;
            forall i, j :: 0 <= i < j < |cols| ==> cols[i] != cols[j]
  {
    var n := NormalizeParams(p, opts, stockList).value;
    ColumnsDistinct(n.reportDates, n.indicatorLabel, n.unit);
  }
}
