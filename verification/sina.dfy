/** `sina_stock_list_complete_fetcher.py`: the record logic of
    `SinaStockListCompleteFetcher` -- normalising and checking the codes of
    one listing page, the paging loop with its four ways to stop, the quality
    check on the collected list, the success rate and the distribution of
    first digits -- and `StockListCompleteness.verify_all`.  The HTTP request
    behind `_fetch_page` is a parameter of the paging loop. */
module SinaStockList {
  import opened Wrappers
  import opened Text
  import opened Seqs
  import DataValidator

  // ---- _normalize_and_validate_code ----

  /** Every character is a lower-case ASCII letter (`[a-z]*`). */
  predicate LowerLetters(s: string) {
    forall k :: 0 <= k < |s| ==> IsAsciiLower(s[k])
  }

  /** `code` begins with `k` (at most two) lower-case letters followed by six
      digits: the shape `^([a-z]{1,2})(\d{6})` matches with `k` letters, and
      `^(\d{6})` is the case `k == 0`. */
  predicate ShapedAt(code: string, k: nat) {
    k <= 2 && k + 6 <= |code| && LowerLetters(code[..k]) && AllDigits(code[k..k + 6])
  }

  /** The shape `^(\d{6})[\.a-z]*$`: six digits and then only dots and
      lower-case letters. */
  predicate SuffixShape(code: string) {
    6 <= |code| && AllDigits(code[..6]) && forall k :: 6 <= k < |code| ==> code[k] == '.' || IsAsciiLower(code[k])
  }

  /** At most one number of leading letters fits: a digit is not a letter. */
  lemma ShapeUnique(code: string, k: nat, j: nat)
    requires ShapedAt(code, k) && ShapedAt(code, j)
    ensures k == j
  {
    if k < j {
      LetterAt(code, j, k);
      DigitAt(code, k);
    } else if j < k {
      LetterAt(code, k, j);
      DigitAt(code, j);
    }
  }

  /** The characters before the digits of a shape are letters. */
  lemma LetterAt(code: string, k: nat, i: nat)
    requires ShapedAt(code, k) && i < k
    ensures IsAsciiLower(code[i])
  {
    LowerAt(code, k, i);
  }

  /** A character inside a prefix of letters is a letter. */
  lemma LowerAt(s: string, n: nat, i: nat)
    requires n <= |s| && LowerLetters(s[..n]) && i < n
    ensures IsAsciiLower(s[i])
  {
    assert s[..n][i] == s[i];
  }

  /** The character where the digits of a shape begin is a digit. */
  lemma DigitAt(code: string, k: nat)
    requires ShapedAt(code, k)
    ensures IsDigit(code[k])
  {
    assert code[k..k + 6][0] == code[k];
  }

  /** The patterns tried in order on the stripped, lower-cased code: letters
      and six digits (two letters tried before one), then a leading run of six
      digits.  The third pattern, six digits with a suffix, is left out: it
      never matches where the second did not (`SuffixBranchDead`).  `None` is
      the `ValueError`.  The result is the six digits after the leading
      letters, whatever the order the patterns are tried in. */
  function ExtractCode(code: string): (r: Option<string>)
    ensures r.Some? ==> IsSixDigits(r.value)
    ensures forall k: nat :: ShapedAt(code, k) ==> r == Some(code[k..k + 6])
    ensures r.Some? <==> exists k: nat :: ShapedAt(code, k)
  {
    if ShapedAt(code, 2) then
      assert forall k: nat :: ShapedAt(code, k) ==> k == 2 by {
        forall k | ShapedAt(code, k) { ShapeUnique(code, k, 2); }
      }
      Some(code[2..8])
    else if ShapedAt(code, 1) then
      assert forall k: nat :: ShapedAt(code, k) ==> k == 1 by {
        forall k | ShapedAt(code, k) { ShapeUnique(code, k, 1); }
      }
      Some(code[1..7])
    else if ShapedAt(code, 0) then
      assert forall k: nat :: ShapedAt(code, k) ==> k == 0 by {
        forall k | ShapedAt(code, k) { ShapeUnique(code, k, 0); }
      }
      Some(code[..6])
    else None
  }

  /** The suffix pattern never decides: whatever it matches, the leading
      six-digit pattern, tried before it, has matched already. */
  lemma SuffixBranchDead(code: string)
    requires SuffixShape(code)
    ensures ShapedAt(code, 0)
  {
    assert code[0..6] == code[..6];
  }

  /** `_normalize_and_validate_code`: strip, lower-case, extract. */
  function NormalizeCode(raw: string): (r: Option<string>)
    ensures r.Some? ==> IsSixDigits(r.value)
  {
    ExtractCode(Lower(Strip(raw)))
  }

  /** Up to two lower-case letters, six digits and anything after them give
      back the six digits: the market prefixes `sh`/`sz`/`a` and the suffix
      `.ss` are dropped, and a longer digit run is cut at six. */
  lemma ExtractPrefixed(prefix: string, digits: string, rest: string)
    requires |prefix| <= 2 && LowerLetters(prefix) && IsSixDigits(digits)
    ensures ExtractCode(prefix + digits + rest) == Some(digits)
  {
    var code := prefix + digits + rest;
    var k := |prefix|;
    assert code[..k] == prefix;
    assert code[k..k + 6] == digits;
    assert ShapedAt(code, k);
  }

  /** A code starting with three letters, or with fewer than six digits after
      its letters, raises. */
  lemma ExtractRejects(code: string)
    requires |code| >= 3 && LowerLetters(code[..3])
    ensures ExtractCode(code) == None
  {
    forall k: nat | ShapedAt(code, k) ensures false {
      LowerAt(code, 3, k);
      DigitAt(code, k);
    }
  }

  /** A raw value without whitespace and upper-case letters is extracted as it is. */
  lemma NormalizePlain(raw: string)
    requires forall c :: c in raw ==> !IsSpace(c) && !IsAsciiUpper(c)
    ensures NormalizeCode(raw) == ExtractCode(raw)
  {
    StripNoSpace(raw);
    assert Lower(raw) == raw;
  }

  /** The same through `_normalize_and_validate_code` when the text after the
      digits holds no whitespace and no upper-case letter. */
  lemma NormalizeRoundTrip(prefix: string, digits: string, rest: string)
    requires |prefix| <= 2 && LowerLetters(prefix) && IsSixDigits(digits)
    requires forall c :: c in rest ==> !IsSpace(c) && !IsAsciiUpper(c)
    ensures NormalizeCode(prefix + digits + rest) == Some(digits)
  {
    var raw := prefix + digits + rest;
    forall c | c in raw ensures !IsSpace(c) && !IsAsciiUpper(c) {
      var k :| 0 <= k < |raw| && raw[k] == c;
      if k < |prefix| {
        assert IsAsciiLower(prefix[k]);
      } else if k < |prefix| + 6 {
        assert IsDigit(digits[k - |prefix|]);
      } else {
        assert c in rest;
      }
    }
    NormalizePlain(raw);
    ExtractPrefixed(prefix, digits, rest);
  }

  /** The normalisation examples of the repository's own test script,
      `sh600000`, `a000002` and `600000.ss`, and a seven-digit run. */
  lemma ExtractExamples()
    ensures ExtractCode("sh600000") == Some("600000")
    ensures ExtractCode("a000002") == Some("000002")
    ensures ExtractCode("600000.ss") == Some("600000")
    ensures ExtractCode("1234567") == Some("123456")
  {
    assert ShapedAt("sh600000", 2) && "sh600000"[2..8] == "600000";
    assert ShapedAt("a000002", 1) && "a000002"[1..7] == "000002";
    assert ShapedAt("600000.ss", 0) && "600000.ss"[0..6] == "600000";
    assert ShapedAt("1234567", 0) && "1234567"[0..6] == "123456";
  }

  // ---- _validate_code_format ----

  /** The first digits `_validate_code_format` accepts. */
  const SinaFirstDigits: set<char> := {'0', '3', '4', '6', '8', '9'}

  /** `_validate_code_format` */
  predicate ValidCodeFormat(code: string) {
    IsSixDigits(code) && code[0] in SinaFirstDigits
  }

  /** This check accepts exactly the codes the data validator accepts and, in
      addition, six-digit codes starting with 9. */
  lemma ValidFormatWidens(code: string)
    ensures ValidCodeFormat(code) <==> DataValidator.IsAShareCode(code) || (IsSixDigits(code) && code[0] == '9')
  {
  }

  // ---- fetch_complete: one page ----

  /** One row of a listing page as `_fetch_page` returns it. */
  datatype PageItem = PageItem(code: string, name: string, industry: string)

  /** `上海` for the codes starting with 6, `深圳` for all others. */
  function MarketOf(code: string): (m: string)
    ensures m == "上海" <==> |code| > 0 && code[0] == '6'
  {
    if |code| > 0 && code[0] == '6' then "上海" else "深圳"
  }

  /** One entry of `self.stocks` (its `source` is always `sina`). */
  datatype Stock = Stock(code: string, name: string, industry: string, market: string, page: nat)

  /** An item whose normalised code fails `_validate_code_format` (`failed_codes`). */
  datatype FilteredCode = FilteredCode(code: string, name: string, page: nat)

  /** An item whose code does not normalise (`parse_errors`). */
  datatype ParseError = ParseError(rawCode: string, name: string, page: nat)

  /** The code an item is stored under, if it is stored. */
  function AcceptedCode(item: PageItem): (r: Option<string>)
    ensures r.Some? <==> NormalizeCode(item.code).Some? && ValidCodeFormat(NormalizeCode(item.code).value)
    ensures r.Some? ==> r == NormalizeCode(item.code)
  {
    match NormalizeCode(item.code)
    case None => None
    case Some(c) => if ValidCodeFormat(c) then Some(c) else None
  }

  /** A stored stock: a valid code and the market its code implies. */
  predicate StockOk(s: Stock) {
    ValidCodeFormat(s.code) && s.market == MarketOf(s.code)
  }

  /** The codes of a stock list, in order. */
  function CodeList(stocks: seq<Stock>): (codes: seq<string>)
    ensures |codes| == |stocks|
    ensures forall i :: 0 <= i < |stocks| ==> codes[i] == stocks[i].code
  {
    seq(|stocks|, i requires 0 <= i < |stocks| => stocks[i].code)
  }

  /** The dictionary `self.stocks`, as its values in insertion order: valid
      stocks, no code twice. */
  predicate StocksOk(stocks: seq<Stock>) {
    && (forall i :: 0 <= i < |stocks| ==> StockOk(stocks[i]))
    && (forall i, j :: 0 <= i < j < |stocks| ==> stocks[i].code != stocks[j].code)
  }

  function Codes(stocks: seq<Stock>): set<string> {
    set s | s in stocks :: s.code
  }

  function HasCode(code: string): Stock -> bool {
    (s: Stock) => s.code == code
  }

  /** `self.stocks[code] = {...}`: a new code is appended, a known one keeps
      its place and takes the new value. */
  function Store(stocks: seq<Stock>, s: Stock): (r: seq<Stock>)
    requires StocksOk(stocks) && StockOk(s)
    ensures StocksOk(r)
    ensures Codes(r) == Codes(stocks) + {s.code}
    ensures s.code !in Codes(stocks) ==> r == stocks + [s]
    ensures s.code in Codes(stocks) ==>
              |r| == |stocks| && forall j :: 0 <= j < |r| ==> r[j] == if stocks[j].code == s.code then s else stocks[j]
  {
    var i := FirstIndex(stocks, HasCode(s.code), 0);
    if i < |stocks| then
      Replace(stocks, i, s);
      stocks[i := s]
    else
      assert s.code !in Codes(stocks);
      stocks + [s]
  }

  /** A new value for a known code: the codes and their order stay, only the
      entry of that code changes. */
  lemma Replace(stocks: seq<Stock>, i: nat, s: Stock)
    requires StocksOk(stocks) && StockOk(s) && i < |stocks| && stocks[i].code == s.code
    ensures StocksOk(stocks[i := s])
    ensures Codes(stocks[i := s]) == Codes(stocks)
    ensures forall j :: 0 <= j < |stocks| ==> stocks[i := s][j] == if stocks[j].code == s.code then s else stocks[j]
  {
    var r := stocks[i := s];
    assert forall j :: 0 <= j < |r| ==> (stocks[j].code == s.code <==> j == i);
    assert Codes(r) == Codes(stocks) by {
      forall c | c in Codes(stocks) ensures c in Codes(r) {
        var t :| t in stocks && t.code == c;
        var j :| 0 <= j < |stocks| && stocks[j] == t;
        assert r[j].code == c;
      }
    }
  }

  /** What one page leaves behind: the stocks, the items filtered and the
      items that failed to parse, and the page's success and failure counts. */
  datatype PageResult = PageResult(stocks: seq<Stock>, filtered: seq<FilteredCode>, errors: seq<ParseError>,
                                   success: nat, failed: nat)

  /** The codes a page stores. */
  function AcceptedCodes(items: seq<PageItem>): (cs: set<string>)
    ensures forall c :: c in cs ==> ValidCodeFormat(c)
    decreases |items|
  {
    if |items| == 0 then {}
    else
      var rest := AcceptedCodes(items[1..]);
      match AcceptedCode(items[0])
      case None => rest
      case Some(c) => {c} + rest
  }

  /** The item loop of `fetch_complete` over one page: every item is stored,
      filtered or recorded as a parse error, and counted as a success or a
      failure accordingly. */
  function AbsorbPage(stocks: seq<Stock>, items: seq<PageItem>, page: nat): (r: PageResult)
    requires StocksOk(stocks)
    ensures StocksOk(r.stocks)
    ensures Codes(r.stocks) == Codes(stocks) + AcceptedCodes(items)
    ensures r.success + r.failed == |items|
    ensures r.failed == |r.filtered| + |r.errors|
    ensures r.success == 0 <==> AcceptedCodes(items) == {}
    decreases |items|
  {
    if |items| == 0 then PageResult(stocks, [], [], 0, 0)
    else
      var item := items[0];
      match NormalizeCode(item.code)
      case None =>
        var rest := AbsorbPage(stocks, items[1..], page);
        PageResult(rest.stocks, rest.filtered, [ParseError(item.code, item.name, page)] + rest.errors,
                   rest.success, rest.failed + 1)
      case Some(c) =>
        if !ValidCodeFormat(c) then
          var rest := AbsorbPage(stocks, items[1..], page);
          PageResult(rest.stocks, [FilteredCode(c, item.name, page)] + rest.filtered, rest.errors,
                     rest.success, rest.failed + 1)
        else
          var s := Stock(c, item.name, item.industry, MarketOf(c), page);
          var rest := AbsorbPage(Store(stocks, s), items[1..], page);
          PageResult(rest.stocks, rest.filtered, rest.errors, rest.success + 1, rest.failed)
  }

  /** Every parse error recorded is a code that does not normalise, and
      every code filtered is a normalised code that fails the format check;
      both carry the page number. */
  lemma {:induction false} AbsorbPageReports(stocks: seq<Stock>, items: seq<PageItem>, page: nat)
    requires StocksOk(stocks)
    ensures var r := AbsorbPage(stocks, items, page);
            && (forall e :: e in r.errors ==> NormalizeCode(e.rawCode).None? && e.page == page)
            && (forall f :: f in r.filtered ==> !ValidCodeFormat(f.code) && f.page == page)
    decreases |items|
  {
    if |items| > 0 {
      var item := items[0];
      match NormalizeCode(item.code)
      case None =>
        AbsorbPageReports(stocks, items[1..], page);
      case Some(c) =>
        if !ValidCodeFormat(c) {
          AbsorbPageReports(stocks, items[1..], page);
        } else {
          AbsorbPageReports(Store(stocks, Stock(c, item.name, item.industry, MarketOf(c), page)), items[1..], page);
        }
    }
  }

  // ---- fetch_complete: the paging loop ----

  /** `page_stats` entry. */
  datatype PageStat = PageStat(page: nat, success: nat, failed: nat, total: nat)

  /** Why the paging loop stopped. */
  datatype Stop =
    | NoData         // the page came back `None` or empty
    | NothingStored  // no item of the page was stored
    | Enough         // more than 5000 stocks after at least 20 pages
    | PageLimit      // page 60 was the last one allowed

  /** The loop's state: `stocks`, `failed_codes`, `parse_errors`, `page_stats`. */
  datatype FetchState = FetchState(stocks: seq<Stock>, filtered: seq<FilteredCode>, errors: seq<ParseError>,
                                   stats: seq<PageStat>)

  const MaxPages: nat := 60
  const EnoughStocks: nat := 5000
  const MinPagesForEnough: nat := 20

  /** A page the loop reads as data (`if not page_data: break` passes). */
  predicate HasData(page: Option<seq<PageItem>>) {
    page.Some? && |page.value| > 0
  }

  /** Every page before page `n` had data. */
  predicate DataBefore(fetchPage: nat -> Option<seq<PageItem>>, n: nat) {
    forall p: nat :: 1 <= p < n ==> HasData(fetchPage(p))
  }

  lemma DataBeforeStep(fetchPage: nat -> Option<seq<PageItem>>, n: nat)
    requires DataBefore(fetchPage, n) && HasData(fetchPage(n))
    ensures DataBefore(fetchPage, n + 1)
  {
  }

  /** `page_stats`: one entry per page absorbed, in page order, each
      splitting the page's items into successes and failures. */
  predicate StatsOk(stats: seq<PageStat>) {
    forall i :: 0 <= i < |stats| ==> stats[i].page == i + 1 && stats[i].success + stats[i].failed == stats[i].total
  }

  lemma StatsStep(stats: seq<PageStat>, next: seq<PageStat>)
    requires StatsOk(stats) && |next| == |stats| + 1 && next[..|stats|] == stats
    requires next[|stats|].page == |stats| + 1 && next[|stats|].success + next[|stats|].failed == next[|stats|].total
    ensures StatsOk(next)
  {
    assert forall i :: 0 <= i < |stats| ==> next[i] == stats[i];
  }

  /** The loop body for a page with data: its items absorbed, what was
      filtered or failed to parse added to the lists, and the page's
      statistics appended. */
  function AbsorbInto(st: FetchState, items: seq<PageItem>, page: nat): (r: FetchState)
    requires StocksOk(st.stocks)
    ensures StocksOk(r.stocks)
    ensures |r.stats| == |st.stats| + 1 && r.stats[..|st.stats|] == st.stats
    ensures var last := r.stats[|st.stats|];
            && last.page == page && last.total == |items| && last.success + last.failed == last.total
            && (last.success == 0 <==> AcceptedCodes(items) == {})
    ensures Codes(r.stocks) == Codes(st.stocks) + AcceptedCodes(items)
  {
    var p := AbsorbPage(st.stocks, items, page);
    FetchState(p.stocks, st.filtered + p.filtered, st.errors + p.errors,
               st.stats + [PageStat(page, p.success, p.failed, |items|)])
  }

  /** The codes accepted on the given pages. */
  function AllAccepted(pages: seq<seq<PageItem>>): set<string> {
    if |pages| == 0 then {} else AllAccepted(pages[..|pages| - 1]) + AcceptedCodes(pages[|pages| - 1])
  }

  /** `pages` are the data of pages 1 to `|pages|`. */
  predicate PagesAre(fetchPage: nat -> Option<seq<PageItem>>, pages: seq<seq<PageItem>>) {
    forall p :: 0 <= p < |pages| ==> fetchPage(p + 1) == Some(pages[p])
  }

  /** What the paging loop knows before requesting page `n`: one statistics
      entry per earlier page, valid stored stocks, and exactly the codes
      accepted on the earlier pages, whose items `pages` lists. */
  predicate Absorbed(fetchPage: nat -> Option<seq<PageItem>>, st: FetchState, pages: seq<seq<PageItem>>, n: nat) {
    |st.stats| + 1 == n && |pages| + 1 == n && StatsOk(st.stats) && StocksOk(st.stocks) && DataBefore(fetchPage, n)
    && PagesAre(fetchPage, pages) && Codes(st.stocks) == AllAccepted(pages)
  }

  /** One more page with data extends the list and its accepted codes. */
  lemma PagesStep(fetchPage: nat -> Option<seq<PageItem>>, pages: seq<seq<PageItem>>, items: seq<PageItem>)
    requires PagesAre(fetchPage, pages) && fetchPage(|pages| + 1) == Some(items)
    ensures PagesAre(fetchPage, pages + [items])
    ensures AllAccepted(pages + [items]) == AllAccepted(pages) + AcceptedCodes(items)
  {
    assert (pages + [items])[..|pages|] == pages;
  }

  /** The loop body for page `page`, which had data: absorb it, then check
      the three stop conditions that follow, in the order the code does. */
  method AbsorbStep(fetchPage: nat -> Option<seq<PageItem>>, st: FetchState, ghost pages: seq<seq<PageItem>>, page: nat) returns (next: FetchState, stop: Option<Stop>)
    requires 1 <= page <= MaxPages && HasData(fetchPage(page)) && Absorbed(fetchPage, st, pages, page)
    ensures Absorbed(fetchPage, next, pages + [fetchPage(page).value], page + 1)
    ensures stop != Some(NoData)
    ensures stop == Some(NothingStored) <==> AcceptedCodes(fetchPage(page).value) == {}
    ensures stop == Some(Enough) ==> |next.stocks| > EnoughStocks && page >= MinPagesForEnough
    ensures stop == Some(PageLimit) ==> page == MaxPages
    ensures stop.None? ==> page < MaxPages
  {
    ghost var stats := st.stats;
    next := AbsorbInto(st, fetchPage(page).value, page);
    StatsStep(stats, next.stats);
    DataBeforeStep(fetchPage, page);
    PagesStep(fetchPage, pages, fetchPage(page).value);
    if next.stats[|st.stats|].success == 0 {
      stop := Some(NothingStored);
    } else if |next.stocks| > EnoughStocks && page >= MinPagesForEnough {
      stop := Some(Enough);
    } else if page + 1 > MaxPages {
      stop := Some(PageLimit);
    } else {
      stop := None;
    }
  }

  /** The paging loop of `fetch_complete`.  `fetchPage(p)` stands for
      `_fetch_page(p)`: `None` on a failed request, otherwise the page's items.
      At most 60 pages are requested, every page before the last one had
      data, the loop says which of its four conditions stopped it, and the
      stored codes are exactly those accepted on the pages absorbed (every
      page up to the last, except the last when it had no data), whose
      items the ghost `pages` lists. */
  method FetchPages(fetchPage: nat -> Option<seq<PageItem>>) returns (st: FetchState, last: nat, stop: Stop, ghost pages: seq<seq<PageItem>>)
    ensures 1 <= last <= MaxPages
    ensures DataBefore(fetchPage, last)
    ensures stop == NoData <==> !HasData(fetchPage(last))
    ensures stop == NothingStored ==> HasData(fetchPage(last)) && AcceptedCodes(fetchPage(last).value) == {}
    ensures stop == Enough ==> |st.stocks| > EnoughStocks && last >= MinPagesForEnough
    ensures stop == PageLimit ==> last == MaxPages
    ensures |st.stats| == if stop == NoData then last - 1 else last
    ensures StatsOk(st.stats)
    ensures StocksOk(st.stocks)
    ensures stop != NoData ==> HasData(fetchPage(last))
    ensures |pages| == |st.stats| && PagesAre(fetchPage, pages) && Codes(st.stocks) == AllAccepted(pages)
  {
    st := FetchState([], [], [], []);
    pages := [];
    var page: nat := 1;
    while true
      invariant 1 <= page <= MaxPages
      invariant Absorbed(fetchPage, st, pages, page)
      decreases MaxPages - page
    {
      if !HasData(fetchPage(page)) {
        last, stop := page, NoData;
        return;
      }
      var found;
      st, found := AbsorbStep(fetchPage, st, pages, page);
      pages := pages + [fetchPage(page).value];
      if found.Some? {
        last, stop := page, found.value;
        return;
      }
      page := page + 1;
    }
  }

  // ---- _check_quality ----

  /** Number of codes whose first character is `c` (`codes_by_first.get(c, 0)`). */
  function CountFirst(codes: seq<string>, c: char): (n: nat)
    ensures n <= |codes|
  {
    if |codes| == 0 then 0
    else
      var x := codes[|codes| - 1];
      CountFirst(codes[..|codes| - 1], c) + if |x| > 0 && x[0] == c then 1 else 0
  }

  /** A problem `_check_quality` reports. */
  datatype QualityIssue = DuplicateCodes | EmptyNames(count: nat) | FewCodes(first: char, count: nat)

  /** The minimum number of codes per first digit `_check_quality` demands. */
  const QualityMinimums: seq<(char, nat)> := [('6', 800), ('0', 400), ('3', 400), ('9', 100)]

  predicate NameEmpty(s: Stock) {
    |s.name| == 0
  }

  /** The minimums not met, in the order listed. */
  function Shortfalls(codes: seq<string>, mins: seq<(char, nat)>): (r: seq<QualityIssue>)
    ensures |r| == 0 <==> forall i :: 0 <= i < |mins| ==> CountFirst(codes, mins[i].0) >= mins[i].1
    ensures forall x :: x in r ==> x.FewCodes?
  {
    if |mins| == 0 then []
    else
      var n := CountFirst(codes, mins[0].0);
      (if n < mins[0].1 then [FewCodes(mins[0].0, n)] else []) + Shortfalls(codes, mins[1..])
  }

  /** `_check_quality`: no issue exactly when no code repeats, every name is
      non-empty and each first digit reaches its minimum. */
  function CheckQuality(stocks: seq<Stock>): (issues: seq<QualityIssue>)
    ensures (DuplicateCodes in issues) <==> !Distinct(CodeList(stocks))
    ensures |issues| == 0 <==>
              && Distinct(CodeList(stocks))
              && (forall i :: 0 <= i < |stocks| ==> |stocks[i].name| > 0)
              && CountFirst(CodeList(stocks), '6') >= 800 && CountFirst(CodeList(stocks), '0') >= 400
              && CountFirst(CodeList(stocks), '3') >= 400 && CountFirst(CodeList(stocks), '9') >= 100
  {
    var codes := CodeList(stocks);
    MinimumsMet(codes);
    var dup, empty, few := DuplicateIssue(codes), EmptyNameIssue(stocks), Shortfalls(codes, QualityMinimums);
    assert DuplicateCodes !in empty + few;
    dup + (empty + few)
  }

  /** The table of minimums read out. */
  lemma MinimumsMet(codes: seq<string>)
    ensures (forall i :: 0 <= i < |QualityMinimums| ==> CountFirst(codes, QualityMinimums[i].0) >= QualityMinimums[i].1) <==>
            && CountFirst(codes, '6') >= 800 && CountFirst(codes, '0') >= 400
            && CountFirst(codes, '3') >= 400 && CountFirst(codes, '9') >= 100
  {
    assert QualityMinimums[0] == ('6', 800) && QualityMinimums[1] == ('0', 400);
    assert QualityMinimums[2] == ('3', 400) && QualityMinimums[3] == ('9', 100);
  }

  /** The duplicate test of `_check_quality`: `len(codes) != len(set(codes))`. */
  function DuplicateIssue(codes: seq<string>): (r: seq<QualityIssue>)
    ensures |r| <= 1
    ensures forall x :: x in r ==> x == DuplicateCodes
    ensures |r| == 0 <==> Distinct(codes)
  {
    ElementsCount(codes);
    if |Elements(codes)| != |codes| then [DuplicateCodes] else []
  }

  /** The empty-name test of `_check_quality`. */
  function EmptyNameIssue(stocks: seq<Stock>): (r: seq<QualityIssue>)
    ensures forall x :: x in r ==> x.EmptyNames?
    ensures |r| == 0 <==> forall i :: 0 <= i < |stocks| ==> |stocks[i].name| > 0
  {
    var empty := |Filter(stocks, NameEmpty)|;
    FilterEmpty(stocks);
    if empty > 0 then [EmptyNames(empty)] else []
  }

  /** No stock has an empty name exactly when none is filtered out as one. */
  lemma FilterEmpty(stocks: seq<Stock>)
    ensures |Filter(stocks, NameEmpty)| == 0 <==> forall i :: 0 <= i < |stocks| ==> |stocks[i].name| > 0
  {
    var r := Filter(stocks, NameEmpty);
    if |r| > 0 {
      assert r[0] in stocks;
    }
    forall i | 0 <= i < |stocks| && |stocks[i].name| == 0 ensures |r| > 0 {
      assert stocks[i] in r;
    }
  }

  /** `fetch_complete`: the paging loop, then the quality check, which turns
      any issue into the `ValueError` the method raises; otherwise the stocks
      in insertion order. `fetched` is what `self.stocks` holds after the
      paging loop, and the ghost `pages` the items of the pages it absorbed. */
  method FetchComplete(fetchPage: nat -> Option<seq<PageItem>>)
    returns (r: Result<seq<Stock>, seq<QualityIssue>>, fetched: seq<Stock>, ghost pages: seq<seq<PageItem>>)
    ensures r.Success? ==> StocksOk(r.value) && CheckQuality(r.value) == []
    ensures r.Failure? ==> |r.error| > 0 && DuplicateCodes !in r.error
    ensures StocksOk(fetched) && PagesAre(fetchPage, pages) && Codes(fetched) == AllAccepted(pages)
    ensures r.Success? <==> CheckQuality(fetched) == []
    ensures r.Success? ==> r.value == fetched
    ensures r.Failure? ==> r.error == CheckQuality(fetched)
  {
    var st, last, stop;
    st, last, stop, pages := FetchPages(fetchPage);
    fetched := st.stocks;
    var issues := CheckQuality(fetched);
    DistinctCodeList(fetched);
    if |issues| > 0 {
      return Failure(issues), fetched, pages;
    }
    return Success(fetched), fetched, pages;
  }

  /** Valid stored stocks never trip the duplicate test. */
  lemma DistinctCodeList(stocks: seq<Stock>)
    requires StocksOk(stocks)
    ensures Distinct(CodeList(stocks))
  {
  }

  // ---- _get_success_rate ----

  /** `_get_success_rate`: stocks stored over stocks stored plus parse
      errors, or 1 when there was nothing. */
  function SuccessRate(stored: nat, errors: nat): (r: real)
    ensures 0.0 <= r <= 1.0
    ensures r == 1.0 <==> errors == 0
    ensures r == 0.0 <==> stored == 0 && errors > 0
    ensures stored + errors > 0 ==> r * (stored + errors) as real == stored as real
  {
    var total := stored + errors;
    if total == 0 then 1.0 else stored as real / total as real
  }

  // ---- _get_code_distribution ----

  /** `_get_code_distribution`: how many codes start with each character. */
  function Distribution(codes: seq<string>): (d: map<char, nat>)
    requires forall i :: 0 <= i < |codes| ==> |codes[i]| > 0
    ensures forall c :: c in d ==> d[c] == CountFirst(codes, c) && d[c] > 0
    ensures forall c :: c !in d ==> CountFirst(codes, c) == 0
  {
    if |codes| == 0 then map[]
    else
      var d := Distribution(codes[..|codes| - 1]);
      var f := codes[|codes| - 1][0];
      d[f := (if f in d then d[f] else 0) + 1]
  }

  /** The count of a character in a distribution, 0 when absent (`dict.get(c, 0)`). */
  function CountOf(d: map<char, nat>, c: char): nat {
    if c in d then d[c] else 0
  }

  const Digits: seq<char> := ['0', '1', '2', '3', '4', '5', '6', '7', '8', '9']

  /** The counts of the characters of `cs` added up. */
  function CountSum(codes: seq<string>, cs: seq<char>): nat {
    if |cs| == 0 then 0 else CountFirst(codes, cs[0]) + CountSum(codes, cs[1..])
  }

  /** One more code adds one to the sum when its first character is listed
      (once) in `cs`. */
  lemma {:induction false} CountSumStep(codes: seq<string>, x: string, cs: seq<char>)
    requires |x| > 0 && Distinct(cs)
    ensures CountSum(codes + [x], cs) == CountSum(codes, cs) + if x[0] in cs then 1 else 0
    decreases |cs|
  {
    if |cs| > 0 {
      assert (codes + [x])[..|codes|] == codes;
      assert Distinct(cs[1..]) by {
        forall i, j | 0 <= i < j < |cs[1..]| ensures cs[1..][i] != cs[1..][j] {
          assert cs[1..][i] == cs[i + 1] && cs[1..][j] == cs[j + 1];
        }
      }
      CountSumStep(codes, x, cs[1..]);
      if x[0] == cs[0] {
        assert x[0] !in cs[1..] by {
          forall i | 0 <= i < |cs[1..]| ensures cs[1..][i] != cs[0] {
            assert cs[1..][i] == cs[i + 1];
          }
        }
      }
    }
  }

  /** The counts of the ten digits add up to the number of codes when every
      code starts with a digit. */
  lemma {:induction false} DigitCountsTotal(codes: seq<string>)
    requires forall i :: 0 <= i < |codes| ==> |codes[i]| > 0 && IsDigit(codes[i][0])
    ensures CountSum(codes, Digits) == |codes|
    decreases |codes|
  {
    if |codes| == 0 {
      assert CountSum(codes, Digits) == 0 by { ZeroSum(codes, Digits); }
    } else {
      var init := codes[..|codes| - 1];
      var x := codes[|codes| - 1];
      DigitCountsTotal(init);
      assert Distinct(Digits);
      CountSumStep(init, x, Digits);
      assert init + [x] == codes;
      assert x[0] in Digits;
    }
  }

  /** Nothing to count gives a zero sum. */
  lemma {:induction false} ZeroSum(codes: seq<string>, cs: seq<char>)
    requires |codes| == 0
    ensures CountSum(codes, cs) == 0
    decreases |cs|
  {
    if |cs| > 0 {
      ZeroSum(codes, cs[1..]);
    }
  }

  /** The counts a distribution holds for the characters of `cs`, added up. */
  function CountsOf(d: map<char, nat>, cs: seq<char>): nat {
    if |cs| == 0 then 0 else CountOf(d, cs[0]) + CountsOf(d, cs[1..])
  }

  /** A table holding the counts of `codes` adds up like the counts themselves. */
  lemma {:induction false} CountsMatch(codes: seq<string>, d: map<char, nat>, cs: seq<char>)
    requires forall c :: CountOf(d, c) == CountFirst(codes, c)
    ensures CountsOf(d, cs) == CountSum(codes, cs)
    decreases |cs|
  {
    if |cs| > 0 {
      CountsMatch(codes, d, cs[1..]);
    }
  }

  /** The distribution of a stored stock list: its counts for the ten digits
      add up to the number of stocks. */
  lemma DistributionTotal(stocks: seq<Stock>)
    requires StocksOk(stocks)
    ensures CountsOf(Distribution(CodeList(stocks)), Digits) == |stocks|
  {
    var codes := CodeList(stocks);
    forall i | 0 <= i < |codes| ensures |codes[i]| > 0 && IsDigit(codes[i][0]) {
      assert StockOk(stocks[i]);
    }
    DigitCountsTotal(codes);
    CountsMatch(codes, Distribution(codes), Digits);
  }

  // ---- StockListCompleteness.verify_all ----

  /** A dictionary of the list `verify_all` checks: `code` and `name`, each
      possibly missing. */
  datatype Entry = Entry(code: Option<string>, name: Option<string>)

  /** The assertion of `verify_all` that fails first. */
  datatype VerifyError =
    | TooFewStocks(count: nat)
    | MissingCode
    | MissingName
    | BadCodeLength(code: string)
    | CodeNotDigits(code: string)
    | DuplicateCount(count: nat)
    | FewWithFirst(first: char, count: nat)

  /** The format assertions for one entry, in their order. */
  function EntryProblem(e: Entry): (r: Option<VerifyError>)
    ensures r.None? <==> e.code.Some? && e.name.Some? && IsSixDigits(e.code.value)
  {
    if e.code.None? then Some(MissingCode)
    else if e.name.None? then Some(MissingName)
    else if |e.code.value| != 6 then Some(BadCodeLength(e.code.value))
    else if !AllDigits(e.code.value) then Some(CodeNotDigits(e.code.value))
    else None
  }

  /** An entry passing the format check. */
  predicate WellFormed(e: Entry) {
    e.code.Some? && e.name.Some? && IsSixDigits(e.code.value)
  }

  /** The first format problem of the list. */
  function FormatProblem(entries: seq<Entry>): (r: Option<VerifyError>)
    ensures r.None? <==> forall i :: 0 <= i < |entries| ==> WellFormed(entries[i])
    decreases |entries|
  {
    if |entries| == 0 then None
    else match EntryProblem(entries[0])
      case Some(e) => Some(e)
      case None =>
        var r := FormatProblem(entries[1..]);
        assert forall i :: 1 <= i < |entries| ==> entries[i] == entries[1..][i - 1];
        r
  }

  /** The codes of well-formed entries. */
  function EntryCodes(entries: seq<Entry>): (codes: seq<string>)
    requires forall i :: 0 <= i < |entries| ==> WellFormed(entries[i])
    ensures |codes| == |entries|
    ensures forall i :: 0 <= i < |entries| ==> Some(codes[i]) == entries[i].code && IsSixDigits(codes[i])
  {
    seq(|entries|, i requires 0 <= i < |entries| && WellFormed(entries[i]) => entries[i].code.value)
  }

  /** `verify_all`: at least 5000 entries, each with a code and a name and a
      six-digit code, no code twice, and more than 800, 400 and 400 codes
      starting with 6, 0 and 3.  The UTF-8 encoding check always passes: a
      Dafny string holds no lone surrogate. */
  function VerifyAll(entries: seq<Entry>): (r: Result<bool, VerifyError>)
    ensures r.Success? ==> r.value
    ensures r.Success? <==>
              && |entries| >= EnoughStocks
              && (forall i :: 0 <= i < |entries| ==> WellFormed(entries[i]))
              && Distinct(EntryCodes(entries))
              && CountFirst(EntryCodes(entries), '6') > 800
              && CountFirst(EntryCodes(entries), '0') > 400
              && CountFirst(EntryCodes(entries), '3') > 400
    ensures |entries| < EnoughStocks ==> r == Failure(TooFewStocks(|entries|))
  {
    if |entries| < EnoughStocks then Failure(TooFewStocks(|entries|))
    else match FormatProblem(entries)
      case Some(e) => Failure(e)
      case None =>
        var codes := EntryCodes(entries);
        ElementsCount(codes);
        var duplicates := |codes| - |Elements(codes)|;
        if duplicates != 0 then Failure(DuplicateCount(duplicates))
        else
          var d := Distribution(codes);
          if CountOf(d, '6') <= 800 then Failure(FewWithFirst('6', CountOf(d, '6')))
          else if CountOf(d, '0') <= 400 then Failure(FewWithFirst('0', CountOf(d, '0')))
          else if CountOf(d, '3') <= 400 then Failure(FewWithFirst('3', CountOf(d, '3')))
          else Success(true)
  }

  /** The list `fetch_complete` returns, as `verify_all` sees it. */
  function EntriesOf(stocks: seq<Stock>): (es: seq<Entry>)
    ensures |es| == |stocks|
    ensures forall i :: 0 <= i < |stocks| ==> es[i] == Entry(Some(stocks[i].code), Some(stocks[i].name))
  {
    seq(|stocks|, i requires 0 <= i < |stocks| => Entry(Some(stocks[i].code), Some(stocks[i].name)))
  }

  /** A list that `fetch_complete` returns passes `verify_all` exactly when it
      has at least 5000 stocks and none of the counts for 6, 0 and 3 sits on
      its minimum: the fetch demands at least 800/400/400, `verify_all` more
      than that. */
  lemma FetchedPassesVerify(stocks: seq<Stock>)
    requires StocksOk(stocks) && CheckQuality(stocks) == []
    ensures VerifyAll(EntriesOf(stocks)).Success? <==>
              && |stocks| >= EnoughStocks
              && CountFirst(CodeList(stocks), '6') != 800
              && CountFirst(CodeList(stocks), '0') != 400
              && CountFirst(CodeList(stocks), '3') != 400
  {
    var es := EntriesOf(stocks);
    forall i | 0 <= i < |es| ensures WellFormed(es[i]) {
      assert StockOk(stocks[i]);
    }
    assert EntryCodes(es) == CodeList(stocks);
  }
}
