/** `data_validator.py`: the validity checks on codes, names, financial values
    and industry dictionaries (`DataValidator`), the cleaning of single
    values and whole records (`DataCleaner`), and first-wins de-duplication
    and the two multi-source merges (`DataDeduplication`). */
module DataValidator {
  import opened Wrappers
  import opened Text
  import opened Seqs
  import opened Records

  /** A check's verdict: pass, or the first problem found. */
  datatype Check<E> = Pass | Fail(error: E)

  // ---- DataValidator ----

  /** `VALID_FIRST_CHARS` */
  const ValidFirstChars: set<char> := {'0', '3', '4', '6', '8'}

  /** An A-share code: six ASCII digits, the first one 0, 3, 4, 6 or 8. */
  predicate IsAShareCode(s: string) {
    IsSixDigits(s) && s[0] in ValidFirstChars
  }

  datatype CodeError = CodeEmpty | CodeLength | CodeNotDigits | CodeFirstChar | CodeSeries92

  /** `validate_stock_code`: a falsy value is empty; otherwise its stripped
      text must be six digits with a valid first digit, and must not start
      with "92" -- a test that never fires, since 9 is not a valid first digit. */
  function ValidateStockCode(code: Cell): (v: Check<CodeError>)
    ensures v.Pass? <==> Truthy(code) && IsAShareCode(Strip(Show(code)))
    ensures !Truthy(code) <==> v == Fail(CodeEmpty)
    ensures v != Fail(CodeSeries92)
  {
    if !Truthy(code) then Fail(CodeEmpty)
    else
      var s := Strip(Show(code));
      if |s| != 6 then Fail(CodeLength)
      else if !AllDigits(s) then Fail(CodeNotDigits)
      else if s[0] !in ValidFirstChars then Fail(CodeFirstChar)
      else if StartsWith(s, "92") then Fail(CodeSeries92)
      else Pass
  }

  /** The characters a company name may not contain: `[<>"'\\|?*]`. */
  const NameForbidden: set<char> := {'<', '>', '"', '\'', '\\', '|', '?', '*'}

  /** A plausible company name: 2 to 100 characters, none of them forbidden. */
  predicate IsCompanyName(s: string) {
    2 <= |s| <= 100 && forall k :: 0 <= k < |s| ==> s[k] !in NameForbidden
  }

  datatype NameError = NameEmpty | NameLength | NameChars

  /** `validate_stock_name` */
  function ValidateStockName(name: Cell): (v: Check<NameError>)
    ensures v.Pass? <==> Truthy(name) && IsCompanyName(Strip(Show(name)))
    ensures !Truthy(name) <==> v == Fail(NameEmpty)
  {
    if !Truthy(name) then Fail(NameEmpty)
    else
      var s := Strip(Show(name));
      if |s| < 2 || |s| > 100 then Fail(NameLength)
      else if exists k :: 0 <= k < |s| && s[k] in NameForbidden then Fail(NameChars)
      else Pass
  }

  /** The largest asset value accepted: one trillion (`1e12`). */
  const MaxAsset: real := 1000000000000.0

  datatype FinancialError = DataEmpty | MissingField(key: Key) | Negative(year: Year) | TooLarge(year: Year) | NotNumber(year: Year)

  /** The financial value of a year is absent or `None`, or a number in [0, 1e12]. */
  predicate YearValueOk(d: Record, y: Year, parse: string -> Option<real>) {
    var v := Get(d, Financial(y));
    v == Null || (ToFloat(v, parse).Some? && 0.0 <= ToFloat(v, parse).value <= MaxAsset)
  }

  function YearCheck(d: Record, y: Year, parse: string -> Option<real>): (v: Check<FinancialError>)
    ensures v.Pass? <==> YearValueOk(d, y, parse)
    ensures v.Fail? ==> !v.error.DataEmpty? && !v.error.MissingField? && v.error.year == y
  {
    var v := Get(d, Financial(y));
    if v == Null then Pass
    else match ToFloat(v, parse)
      case None => Fail(NotNumber(y))
      case Some(x) => if x < 0.0 then Fail(Negative(y)) else if x > MaxAsset then Fail(TooLarge(y)) else Pass
  }

  /** `validate_financial_data` */
  function ValidateFinancialData(d: Record, parse: string -> Option<real>): (v: Check<FinancialError>)
    ensures v.Pass? <==> |d| > 0 && Truthy(Get(d, Code)) && Truthy(Get(d, Name))
                         && YearValueOk(d, Y2023, parse) && YearValueOk(d, Y2024, parse)
    ensures |d| == 0 <==> v == Fail(DataEmpty)
  {
    if |d| == 0 then Fail(DataEmpty)
    else if !Truthy(Get(d, Code)) then Fail(MissingField(Code))
    else if !Truthy(Get(d, Name)) then Fail(MissingField(Name))
    else if YearCheck(d, Y2023, parse).Fail? then YearCheck(d, Y2023, parse)
    else YearCheck(d, Y2024, parse)
  }

  datatype IndustryError = IndustryEmpty | MissingL1 | L2TooLong | L3TooLong

  /** A level given, truthy, and longer than 50 characters once stripped. */
  predicate LevelTooLong(f: map<string, Cell>, level: string) {
    level in f && Truthy(f[level]) && |Strip(Show(f[level]))| > 50
  }

  /** `validate_industry_classification`: level 1 must be given; levels 2
      and 3, when given, must be at most 50 characters.  A non-standard
      level 1 only logs a warning. */
  function ValidateIndustryClassification(industry: Cell): (v: Check<IndustryError>)
    ensures v.Pass? <==> industry.Dict? && Truthy(industry) && "l1" in industry.fields && Truthy(industry.fields["l1"])
                         && !LevelTooLong(industry.fields, "l2") && !LevelTooLong(industry.fields, "l3")
  {
    if !Truthy(industry) then Fail(IndustryEmpty)
    else match industry
      case Dict(f, _) =>
        if !("l1" in f && Truthy(f["l1"])) then Fail(MissingL1)
        else if LevelTooLong(f, "l2") then Fail(L2TooLong)
        else if LevelTooLong(f, "l3") then Fail(L3TooLong)
        else Pass
      case _ => Fail(MissingL1)
  }

  /** The truthy values that are not dictionaries and on which the test
      `'l1' not in industry or not industry['l1']` raises `TypeError`: a
      number or `True` is not a container, and a string containing "l1"
      cannot be indexed by a string.  A string without "l1" takes the
      missing-level-1 branch instead. */
  predicate IndustryRaises(industry: Cell) {
    Truthy(industry) && (industry.Flag? || industry.Num? || (industry.Str? && Contains(industry.s, "l1")))
  }

  /** A truthy value that is not a dictionary fails as missing level 1: as
      the source does for a string without "l1", and in place of the
      `TypeError` it raises for the others. */
  lemma NonDictIndustry(industry: Cell)
    requires Truthy(industry) && !industry.Dict?
    ensures ValidateIndustryClassification(industry) == Fail(MissingL1)
    ensures !IndustryRaises(industry) <==> industry.Str? && !Contains(industry.s, "l1")
  {
  }

  datatype RecordError =
    | CodeProblem(code: CodeError) | NameProblem(name: NameError)
    | FinancialProblem(financial: FinancialError) | IndustryProblem(industry: IndustryError)

  /** `validate_record`: the list of problems, in the order code, name,
      financial data, industry (checked only when the record has a truthy industry). */
  function ValidateRecord(r: Record, parse: string -> Option<real>): (errors: seq<RecordError>)
    ensures |errors| <= 4
    ensures errors == [] <==> RecordOk(r, parse)
  {
    (match ValidateStockCode(Get(r, Code)) case Pass => [] case Fail(e) => [CodeProblem(e)])
    + (match ValidateStockName(Get(r, Name)) case Pass => [] case Fail(e) => [NameProblem(e)])
    + (match ValidateFinancialData(r, parse) case Pass => [] case Fail(e) => [FinancialProblem(e)])
    + (if Truthy(Get(r, Industry)) then
         match ValidateIndustryClassification(Get(r, Industry)) case Pass => [] case Fail(e) => [IndustryProblem(e)]
       else [])
  }

  /** Every check `validate_record` makes passes. */
  predicate RecordOk(r: Record, parse: string -> Option<real>) {
    && ValidateStockCode(Get(r, Code)).Pass?
    && ValidateStockName(Get(r, Name)).Pass?
    && ValidateFinancialData(r, parse).Pass?
    && (Truthy(Get(r, Industry)) ==> ValidateIndustryClassification(Get(r, Industry)).Pass?)
  }

  // ---- DataCleaner ----

  /** `re.sub(r'^[a-zA-Z]{2}', '', s)`: two leading ASCII letters removed, once. */
  function DropLetterPrefix(s: string): (r: string)
    ensures r == s || (|s| >= 2 && IsAsciiLetter(s[0]) && IsAsciiLetter(s[1]) && r == s[2..])
    ensures |s| >= 2 && IsAsciiLetter(s[0]) && IsAsciiLetter(s[1]) ==> r == s[2..]
  {
    if |s| >= 2 && IsAsciiLetter(s[0]) && IsAsciiLetter(s[1]) then s[2..] else s
  }

  /** `clean_stock_code`: strip, drop one two-letter exchange prefix, strip
      again, and keep the result only if it is a valid code. */
  function CleanStockCode(code: Cell): (r: Option<string>)
    ensures r.Some? ==> Truthy(code) && IsAShareCode(r.value) && ValidateStockCode(Str(r.value)).Pass?
  {
    if !Truthy(code) then None
    else
      var t := Strip(DropLetterPrefix(Strip(Show(code))));
      StripIdempotent(DropLetterPrefix(Strip(Show(code))));
      if ValidateStockCode(Str(t)).Pass? then Some(t) else None
  }

  /** A valid code is its own cleaned form. */
  lemma CleanValidCode(s: string)
    requires IsAShareCode(s)
    ensures CleanStockCode(Str(s)) == Some(s)
  {
    DigitsStrip(s);
    assert !IsAsciiLetter(s[0]) by {
      assert IsDigit(s[0]);
    }
    CleanCodeSteps(Str(s), s, s);
  }

  /** A valid code passes `validate_stock_code` as it stands. */
  lemma ValidCodePasses(s: string)
    requires IsAShareCode(s)
    ensures ValidateStockCode(Str(s)).Pass?
  {
    DigitsStrip(s);
  }

  /** How `CleanStockCode` reaches its result, one step at a time. */
  lemma CleanCodeSteps(code: Cell, stripped: string, t: string)
    requires Truthy(code) && Strip(Show(code)) == stripped
    requires Strip(DropLetterPrefix(stripped)) == t
    ensures CleanStockCode(code) == if ValidateStockCode(Str(t)).Pass? then Some(t) else None
  {
  }

  /** Digits are not whitespace, so a digit string strips to itself. */
  lemma DigitsStrip(s: string)
    requires AllDigits(s)
    ensures Strip(s) == s
  {
    forall c | c in s ensures !IsSpace(c) {
      assert IsDigit(c);
    }
    StripNoSpace(s);
  }

  /** A code with an exchange prefix cleans to the bare code: "sh600000" gives "600000". */
  lemma CleanPrefixedCode(prefix: string, s: string)
    requires |prefix| == 2 && IsAsciiLetter(prefix[0]) && IsAsciiLetter(prefix[1])
    requires IsAShareCode(s)
    ensures CleanStockCode(Str(prefix + s)) == Some(s)
  {
    PrefixedCodeSteps(prefix, s);
    ValidCodePasses(s);
    CleanCodeSteps(Str(prefix + s), prefix + s, s);
  }

  /** A prefixed code strips to itself and loses exactly its prefix. */
  lemma PrefixedCodeSteps(prefix: string, s: string)
    requires |prefix| == 2 && IsAsciiLetter(prefix[0]) && IsAsciiLetter(prefix[1])
    requires AllDigits(s)
    ensures Strip(Show(Str(prefix + s))) == prefix + s
    ensures Strip(DropLetterPrefix(prefix + s)) == s
  {
    var t := prefix + s;
    LettersDigitsStrip(prefix, s);
    assert t[2..] == s && t[0] == prefix[0] && t[1] == prefix[1];
    DigitsStrip(s);
  }

  /** ASCII letters followed by digits hold no whitespace. */
  lemma LettersDigitsStrip(prefix: string, s: string)
    requires forall k :: 0 <= k < |prefix| ==> IsAsciiLetter(prefix[k])
    requires AllDigits(s)
    ensures Strip(prefix + s) == prefix + s
  {
    var t := prefix + s;
    forall c | c in t ensures !IsSpace(c) {
      var k :| 0 <= k < |t| && t[k] == c;
      if k < |prefix| {
        assert IsAsciiLetter(prefix[k]);
      } else {
        assert IsDigit(s[k - |prefix|]);
      }
    }
    StripNoSpace(t);
  }

  /** Only one prefix is removed: a doubly prefixed code is rejected. */
  lemma CleanDoublePrefix(prefix: string, s: string)
    requires |prefix| == 4 && forall k :: 0 <= k < 4 ==> IsAsciiLetter(prefix[k])
    requires IsAShareCode(s)
    ensures CleanStockCode(Str(prefix + s)) == None
  {
    var t := prefix + s;
    LettersDigitsStrip(prefix, s);
    var u := t[2..];
    assert u == prefix[2..] + s;
    LettersDigitsStrip(prefix[2..], s);
    assert DropLetterPrefix(t) == u by {
      assert t[0] == prefix[0] && t[1] == prefix[1];
    }
    assert !IsDigit(u[0]) by {
      assert u[0] == prefix[2];
    }
    CleanCodeSteps(Str(t), t, u);
  }

  /** Index of the last `c` in `s`, or -1. */
  function LastOf(s: string, c: char): (i: int)
    ensures -1 <= i < |s|
    ensures i >= 0 ==> s[i] == c
    ensures forall j :: i < j < |s| ==> s[j] != c
  {
    if |s| == 0 then -1
    else if s[|s| - 1] == c then |s| - 1
    else LastOf(s[..|s| - 1], c)
  }

  /** The length of a match of `\(.*\)` (with `open` and `close` as the
      brackets) at the start of `s`, or 0 when there is none: `.` does not
      match a newline and `*` is greedy, so the match runs to the last
      closing bracket before the first newline. */
  function BracketMatch(s: string, open: char, close: char): (e: nat)
    ensures e == 0 || (2 <= e <= |s| && s[0] == open && s[e - 1] == close && '\n' !in s[1..e - 1])
  {
    if |s| == 0 || s[0] != open then 0
    else
      var line := FirstWhere(s[1..], c => c == '\n');
      var k := LastOf(s[1..1 + line], close);
      if k < 0 then 0
      else
        assert s[1..k + 1] == s[1..1 + line][..k];
        k + 2
  }

  /** `re.sub(r'\(.*\)|\（.*\）', '', s)`: every bracketed stretch, in
      ASCII or full-width brackets, removed left to right. */
  function RemoveBracketed(s: string): (r: string)
    ensures |r| <= |s|
    ensures forall c :: c in r ==> c in s
    decreases |s|
  {
    if |s| == 0 then ""
    else
      var e := BracketMatch(s, '(', ')');
      var f := BracketMatch(s, '（', '）');
      if e > 0 then RemoveBracketed(s[e..])
      else if f > 0 then RemoveBracketed(s[f..])
      else [s[0]] + RemoveBracketed(s[1..])
  }

  /** The text `clean_stock_name` builds before its final test: strip,
      collapse whitespace runs to one space, remove bracketed stretches, strip. */
  function NameText(name: Cell): (t: string)
    ensures IsStripped(t)
  {
    Strip(RemoveBracketed(Join(Words(Strip(Show(name))), " ")))
  }

  /** `clean_stock_name`: `None` for a falsy name; otherwise the cleaned
      text, kept only if it is a valid name. */
  function CleanStockName(name: Cell): (r: Option<string>)
    ensures r.Some? ==> Truthy(name) && IsStripped(r.value) && IsCompanyName(r.value) && ValidateStockName(Str(r.value)).Pass?
    ensures !Truthy(name) ==> r.None?
    ensures Truthy(name) ==> (r.Some? <==> IsCompanyName(NameText(name)))
    ensures r.Some? ==> r.value == NameText(name)
  {
    if !Truthy(name) then None
    else KeepValidName(NameText(name))
  }

  /** The final test of `clean_stock_name` on text already stripped: the
      text is kept unchanged exactly when it passes `validate_stock_name`. */
  function KeepValidName(t: string): (r: Option<string>)
    requires IsStripped(t)
    ensures r.Some? ==> r.value == t && IsCompanyName(t) && ValidateStockName(Str(t)).Pass?
    ensures ValidateStockName(Str(t)).Pass? <==> r == Some(t)
    ensures r.Some? <==> IsCompanyName(t)
  {
    StripStripped(t);
    if ValidateStockName(Str(t)).Pass? then Some(t) else None
  }

  /** Text without brackets loses nothing to the bracket removal. */
  lemma {:induction false} RemoveBracketedNoBrackets(s: string)
    requires forall k :: 0 <= k < |s| ==> s[k] != '(' && s[k] != '（'
    ensures RemoveBracketed(s) == s
    decreases |s|
  {
    if |s| > 0 {
      RemoveBracketedNoBrackets(s[1..]);
      assert s == [s[0]] + s[1..];
    }
  }

  /** A valid name without whitespace or brackets comes out of
      `clean_stock_name` unchanged. */
  lemma CleanStockNameKeepsPlain(t: string)
    requires IsCompanyName(t)
    requires forall k :: 0 <= k < |t| ==> !IsSpace(t[k]) && t[k] != '(' && t[k] != '（'
    ensures CleanStockName(Str(t)) == Some(t)
  {
    StripStripped(t);
    assert FirstWhere(t, IsSpace) == |t|;
    assert SplitRuns(t, IsSpace) == [t];
    assert NonEmpty([t]) == [t];
    assert Words(t) == [t];
    RemoveBracketedNoBrackets(t);
    assert NameText(Str(t)) == t;
    assert Truthy(Str(t));
    assert KeepValidName(t) == Some(t);
  }

  /** `str(value).strip()` with the thousands separators removed. */
  function AmountText(value: Cell): (t: string)
    ensures ',' !in t
  {
    var t := RemoveAll(Strip(Show(value)), ",");
    RemoveAllGone(Strip(Show(value)), ',');
    t
  }

  /** `x * factor` when `x` parsed. */
  function Scale(x: Option<real>, factor: real): (r: Option<real>)
    ensures r.Some? <==> x.Some?
    ensures r.Some? ==> r.value == x.value * factor
  {
    match x
    case None => None
    case Some(v) => Some(v * factor)
  }

  /** The amount `clean_financial_value` reads from its text, as written:
      the test for 万 comes first, so text holding 百万 also takes the 万
      branch, which leaves 百 behind and fails to parse. */
  function AmountAsWritten(t: string, parse: string -> Option<real>): (a: Option<real>)
    ensures '万' in t ==> a == Scale(parse(RemoveAll(t, "万")), 10000.0)
  {
    if '万' in t then Scale(parse(RemoveAll(t, "万")), 10000.0)
    else if Contains(t, "百万") then Scale(parse(RemoveAll(t, "百万")), 1000000.0)
    else parse(t)
  }

  /** The 百万 branch of `AmountAsWritten` can never be taken: text
      without 万 holds no 百万 and is parsed as it is. */
  lemma MillionBranchDead(t: string, parse: string -> Option<real>)
    requires '万' !in t
    ensures !Contains(t, "百万")
    ensures AmountAsWritten(t, parse) == parse(t)
  {
    if Contains(t, "百万") {
      ContainsInfix(t, "百万", 1, 2);
      assert "百万"[1..2] == ['万'];
      ContainsChar(t, '万');
    }
  }

  /** The amount with the units in the order evidently intended: 百万
      (millions) is recognised before 万 (ten thousands). */
  function Amount(t: string, parse: string -> Option<real>): (a: Option<real>)
    ensures Contains(t, "百万") ==> a == Scale(parse(RemoveAll(t, "百万")), 1000000.0)
    ensures !Contains(t, "百万") ==> a == AmountAsWritten(t, parse)
  {
    if Contains(t, "百万") then Scale(parse(RemoveAll(t, "百万")), 1000000.0)
    else if '万' in t then Scale(parse(RemoveAll(t, "万")), 10000.0)
    else parse(t)
  }

  /** The range check of `clean_financial_value`: a negative amount becomes 0
      when zero is allowed (otherwise it is dropped), and an amount above
      one trillion is dropped. */
  function Bound(a: Option<real>, allowZero: bool): (r: Option<real>)
    ensures r.Some? ==> 0.0 <= r.value <= MaxAsset
    ensures a.Some? && 0.0 <= a.value <= MaxAsset ==> r == a
    ensures r.Some? && r.value != 0.0 ==> r == a
    ensures a.Some? && a.value < 0.0 ==> (r.Some? <==> allowZero)
  {
    match a
    case None => None
    case Some(x) =>
      if x < 0.0 then (if allowZero then Some(0.0) else None)
      else if x > MaxAsset then None
      else a
  }

  /** `clean_financial_value` as written. */
  function CleanFinancialValueAsWritten(value: Cell, allowZero: bool, parse: string -> Option<real>): (r: Option<real>)
    ensures value == Null ==> r == None
    ensures r.Some? ==> 0.0 <= r.value <= MaxAsset
  {
    if value == Null then None else Bound(AmountAsWritten(AmountText(value), parse), allowZero)
  }

  /** `clean_financial_value` with 百万 recognised: `None` stays `None`, and
      any other value gives `None` or an amount in [0, 1e12]; a result other
      than 0 is the amount the text denotes. */
  function CleanFinancialValue(value: Cell, allowZero: bool, parse: string -> Option<real>): (r: Option<real>)
    ensures value == Null ==> r == None
    ensures r.Some? ==> 0.0 <= r.value <= MaxAsset
    ensures r.Some? && r.value != 0.0 ==> r == Amount(AmountText(value), parse)
  {
    if value == Null then None else Bound(Amount(AmountText(value), parse), allowZero)
  }

  /** Allowing zero only turns a dropped negative amount into 0. */
  lemma AllowZeroOnlyAddsZero(value: Cell, parse: string -> Option<real>)
    ensures CleanFinancialValue(value, false, parse).Some? ==>
              CleanFinancialValue(value, false, parse) == CleanFinancialValue(value, true, parse)
    ensures CleanFinancialValue(value, true, parse) != CleanFinancialValue(value, false, parse) ==>
              CleanFinancialValue(value, true, parse) == Some(0.0)
  {
  }

  /** Text with no whitespace and no comma is its own amount text. */
  lemma PlainAmountText(t: string)
    requires forall c :: c in t ==> !IsSpace(c) && c != ','
    ensures AmountText(Str(t)) == t
  {
    StripNoSpace(t);
    ContainsChar(t, ',');
  }

  /** Digits followed by a unit suffix are plain amount text. */
  lemma DigitsWithUnit(d: string, unit: string)
    requires AllDigits(d)
    requires unit == "" || unit == "万" || unit == "百万" || unit == "百"
    ensures AmountText(Str(d + unit)) == d + unit
    ensures '万' !in d && '百' !in d
  {
    forall c | c in d + unit ensures !IsSpace(c) && c != ',' && (c in d ==> IsDigit(c)) {
      var k :| 0 <= k < |d + unit| && (d + unit)[k] == c;
      if k < |d| {
        assert IsDigit(d[k]);
      }
    }
    PlainAmountText(d + unit);
  }

  /** A plain run of digits cleans to its value. */
  lemma CleanDigits(d: string, allowZero: bool, parse: string -> Option<real>)
    requires FloatSemantics(parse)
    requires |d| > 0 && AllDigits(d) && DecimalValue(d) as real <= MaxAsset
    ensures CleanFinancialValue(Str(d), allowZero, parse) == Some(DecimalValue(d) as real)
  {
    DigitsWithUnit(d, "");
    assert d + "" == d;
    MillionBranchDead(d, parse);
  }

  /** Digits that parse to `v`, followed by 万, count `v` ten thousands:
      "3万" cleans to 30000. */
  lemma CleanTenThousands(d: string, v: real, allowZero: bool, parse: string -> Option<real>)
    requires AllDigits(d) && parse(d) == Some(v) && 0.0 <= v * 10000.0 <= MaxAsset
    ensures CleanFinancialValue(Str(d + "万"), allowZero, parse) == Some(v * 10000.0)
  {
    TenThousandsText(d);
    TenThousandsAmount(d + "万", d, parse);
    CleanTenThousandsText(d + "万", d, v, allowZero, parse);
  }

  /** Text read as `v` ten thousands cleans to that amount. */
  lemma CleanTenThousandsText(t: string, d: string, v: real, allowZero: bool, parse: string -> Option<real>)
    requires AmountText(Str(t)) == t && Amount(t, parse) == Scale(parse(d), 10000.0)
    requires parse(d) == Some(v) && 0.0 <= v * 10000.0 <= MaxAsset
    ensures CleanFinancialValue(Str(t), allowZero, parse) == Some(v * 10000.0)
  {
    var a := Scale(parse(d), 10000.0);
    ScaleTenThousands(parse(d), v);
    CleanInRange(Str(t), t, a, allowZero, parse);
  }

  lemma ScaleTenThousands(x: Option<real>, v: real)
    requires x == Some(v)
    ensures Scale(x, 10000.0) == Some(v * 10000.0)
  {
  }

  /** A value whose text denotes an amount in range cleans to that amount. */
  lemma CleanInRange(value: Cell, t: string, a: Option<real>, allowZero: bool, parse: string -> Option<real>)
    requires value != Null && AmountText(value) == t && Amount(t, parse) == a
    requires a.Some? && 0.0 <= a.value <= MaxAsset
    ensures CleanFinancialValue(value, allowZero, parse) == a
  {
    CleanVia(value, t, a, allowZero, parse);
  }

  /** Digits followed by 万: plain amount text with 万 and no 百万, which
      leaves the digits once 万 is removed. */
  lemma TenThousandsText(d: string)
    requires AllDigits(d)
    ensures AmountText(Str(d + "万")) == d + "万"
    ensures '万' in d + "万" && !Contains(d + "万", "百万") && RemoveAll(d + "万", "万") == d
  {
    DigitsWithUnit(d, "万");
    RemoveAllAppend(d, "万");
    TenThousandsChars(d);
    MissingCharNotContained(d + "万", "百万", 0);
  }

  lemma TenThousandsChars(d: string)
    requires '百' !in d
    ensures '万' in d + "万" && '百' !in d + "万"
  {
    var t := d + "万";
    assert t[|d|] == '万';
    assert forall k :: 0 <= k < |d| ==> t[k] == d[k];
  }

  /** Digits that parse to `v`, followed by 百万, count `v` millions:
      "2百万" cleans to 2000000. */
  lemma CleanMillions(d: string, v: real, allowZero: bool, parse: string -> Option<real>)
    requires AllDigits(d) && parse(d) == Some(v) && 0.0 <= v * 1000000.0 <= MaxAsset
    ensures CleanFinancialValue(Str(d + "百万"), allowZero, parse) == Some(v * 1000000.0)
  {
    var t := d + "百万";
    DigitsWithUnit(d, "百万");
    RemoveAllAppend(d, "百万");
    ContainsAppended(d, "百万");
    var a := Scale(parse(d), 1000000.0);
    assert Amount(t, parse) == a;
    ScaleMillions(parse(d), v);
    CleanInRange(Str(t), t, a, allowZero, parse);
  }

  lemma ScaleMillions(x: Option<real>, v: real)
    requires x == Some(v)
    ensures Scale(x, 1000000.0) == Some(v * 1000000.0)
  {
  }

  /** As written, the same text is dropped: the 万 branch leaves "2百",
      which does not parse. */
  lemma MillionsLostAsWritten(d: string, allowZero: bool, parse: string -> Option<real>)
    requires FloatSemantics(parse)
    requires |d| > 0 && AllDigits(d)
    ensures CleanFinancialValueAsWritten(Str(d + "百万"), allowZero, parse) == None
  {
    var t := d + "百万";
    var rest := d + "百";
    DigitsWithUnit(d, "百万");
    HundredRest(d);
    HundredLeftOver(rest, parse);
    CleanAsWrittenVia(Str(t), t, None, allowZero, parse);
  }

  /** Digits followed by 百万 are digits followed by 百, then 万. */
  lemma HundredRest(d: string)
    requires AllDigits(d)
    ensures d + "百万" == (d + "百") + "万"
    ensures '万' !in d + "百" && '百' in d + "百"
  {
    var rest := d + "百";
    MillionSuffix(d);
    DigitsWithUnit(d, "");
    assert '万' !in rest by {
      assert forall k :: 0 <= k < |d| ==> rest[k] == d[k];
    }
    assert rest[|d|] == '百';
  }

  /** Text whose only 万 is its last character, and which holds 百, reads
      as no amount in the code as written. */
  lemma HundredLeftOver(rest: string, parse: string -> Option<real>)
    requires FloatSemantics(parse)
    requires '万' !in rest && '百' in rest
    ensures AmountAsWritten(rest + "万", parse) == None
  {
    assert (rest + "万")[|rest|] == '万';
    RemoveAllAppend(rest, "万");
    ParseHundred(rest, parse);
  }

  /** 百万 is 百 followed by 万. */
  lemma MillionSuffix(d: string)
    ensures d + "百万" == (d + "百") + "万"
  {
    assert "百万" == "百" + "万";
  }

  /** Text with 万 but no 百万 counts ten thousands. */
  lemma TenThousandsAmount(t: string, rest: string, parse: string -> Option<real>)
    requires '万' in t && !Contains(t, "百万") && RemoveAll(t, "万") == rest
    ensures Amount(t, parse) == Scale(parse(rest), 10000.0)
  {
  }

  /** A run of digits parses to its decimal value. */
  lemma ParseDigits(d: string, parse: string -> Option<real>)
    requires FloatSemantics(parse)
    requires |d| > 0 && AllDigits(d)
    ensures parse(d) == Some(DecimalValue(d) as real)
  {
  }

  /** Text holding 百 does not parse. */
  lemma ParseHundred(s: string, parse: string -> Option<real>)
    requires FloatSemantics(parse)
    requires '百' in s
    ensures parse(s) == None
  {
  }

  /** `CleanFinancialValue` bounds the amount its text denotes. */
  lemma CleanVia(value: Cell, t: string, a: Option<real>, allowZero: bool, parse: string -> Option<real>)
    requires value != Null && AmountText(value) == t && Amount(t, parse) == a
    ensures CleanFinancialValue(value, allowZero, parse) == Bound(a, allowZero)
  {
  }

  /** `CleanFinancialValueAsWritten` bounds the amount its text denotes as written. */
  lemma CleanAsWrittenVia(value: Cell, t: string, a: Option<real>, allowZero: bool, parse: string -> Option<real>)
    requires value != Null && AmountText(value) == t && AmountAsWritten(t, parse) == a
    ensures CleanFinancialValueAsWritten(value, allowZero, parse) == Bound(a, allowZero)
  {
  }

  /** What `clean_record` does with one record: the cleaned record, if any,
      and what it adds to the cleaner's discarded and cleaned counters. */
  datatype CleanOutcome = CleanOutcome(record: Option<Record>, discarded: nat, cleaned: nat)

  /** The keys every cleaned record has. */
  const CleanedKeys: set<Key> := {Code, Name, Financial(Y2023), Financial(Y2024), Industry}

  /** The keys copied unchanged when present: market, list date, data source. */
  const CopiedKeys: set<Key> := {Market, ListDate, DataSource}

  /** A cleaned amount as a Python value; `fmt` is `str()` on floats. */
  function AmountCell(a: Option<real>, fmt: real -> string): (c: Cell)
    ensures a.None? <==> c == Null
    ensures a.Some? ==> c.Num? && c.x == a.value
  {
    match a
    case None => Null
    case Some(x) => Num(x, fmt(x))
  }

  /** The cleaned value of one report year, by `clean_financial_value` as
      written: `None` when the key is absent. */
  function CleanedYear(r: Record, y: Year, parse: string -> Option<real>, fmt: real -> string): (c: Cell)
    ensures c == Null || (c.Num? && 0.0 <= c.x <= MaxAsset)
    ensures Financial(y) !in r ==> c == Null
    ensures Financial(y) in r ==> (c == Null <==> CleanFinancialValueAsWritten(r[Financial(y)], true, parse).None?)
  {
    if Financial(y) in r then AmountCell(CleanFinancialValueAsWritten(r[Financial(y)], true, parse), fmt) else Null
  }

  /** The record `clean_record` builds from `r` once its code and name have
      cleaned to `code` and `name`. */
  function Cleaned(r: Record, code: string, name: string, parse: string -> Option<real>, fmt: real -> string): (c: Record)
    ensures c.Keys == CleanedKeys + (CopiedKeys * r.Keys)
    ensures Get(c, Code) == Str(code) && Get(c, Name) == Str(name)
    ensures forall k :: k in CopiedKeys ==> Get(c, k) == Get(r, k)
    ensures Get(c, Industry) == if Truthy(Get(r, Industry)) then r[Industry] else Null
    ensures Get(c, Financial(Y2023)) == CleanedYear(r, Y2023, parse, fmt)
    ensures Get(c, Financial(Y2024)) == CleanedYear(r, Y2024, parse, fmt)
  {
    var fixed := map[Code := Str(code), Name := Str(name),
                     Financial(Y2023) := CleanedYear(r, Y2023, parse, fmt),
                     Financial(Y2024) := CleanedYear(r, Y2024, parse, fmt),
                     Industry := if Truthy(Get(r, Industry)) then r[Industry] else Null];
    var copied := map k | k in CopiedKeys && k in r :: r[k];
    assert fixed.Keys == CleanedKeys;
    assert copied.Keys == CopiedKeys * r.Keys;
    fixed + copied
  }

  /** `clean_record`: an empty record gives `None` without counting; a record
      whose code or name does not clean gives `None` and counts as discarded;
      otherwise the cleaned record, counted as cleaned when it validates. */
  function CleanRecord(r: Record, parse: string -> Option<real>, fmt: real -> string): (out: CleanOutcome)
    ensures out.record.None? <==> |r| == 0 || CleanStockCode(Get(r, Code)).None? || CleanStockName(Get(r, Name)).None?
    ensures out.discarded == (if |r| > 0 && out.record.None? then 1 else 0)
    ensures out.cleaned == (if out.record.Some? && RecordOk(out.record.value, parse) then 1 else 0)
    ensures out.record.Some? ==>
              out.record.value == Cleaned(r, CleanStockCode(Get(r, Code)).value, CleanStockName(Get(r, Name)).value, parse, fmt)
  {
    if |r| == 0 then CleanOutcome(None, 0, 0)
    else match CleanStockCode(Get(r, Code))
      case None => CleanOutcome(None, 1, 0)
      case Some(code) =>
        match CleanStockName(Get(r, Name))
        case None => CleanOutcome(None, 1, 0)
        case Some(name) =>
          var c := Cleaned(r, code, name, parse, fmt);
          CleanOutcome(Some(c), 0, if ValidateRecord(c, parse) == [] then 1 else 0)
  }

  /** A record that cleans passes every check but possibly the industry
      check: it is counted as cleaned exactly when its industry, if truthy,
      is a valid classification. */
  lemma CleanedRecordOk(r: Record, parse: string -> Option<real>, fmt: real -> string)
    requires CleanRecord(r, parse, fmt).record.Some?
    ensures CleanRecord(r, parse, fmt).cleaned == 1 <==>
              (Truthy(Get(r, Industry)) ==> ValidateIndustryClassification(r[Industry]).Pass?)
  {
    var code := CleanStockCode(Get(r, Code)).value;
    var name := CleanStockName(Get(r, Name)).value;
    var c := Cleaned(r, code, name, parse, fmt);
    assert CleanRecord(r, parse, fmt).record.value == c;
    assert Truthy(Str(code)) && Truthy(Str(name));
    CleanedYearOk(c, r, Y2023, parse, fmt);
    CleanedYearOk(c, r, Y2024, parse, fmt);
    assert ValidateFinancialData(c, parse).Pass?;
  }

  /** A cleaned year value always passes the financial range check. */
  lemma CleanedYearOk(c: Record, r: Record, y: Year, parse: string -> Option<real>, fmt: real -> string)
    requires Get(c, Financial(y)) == CleanedYear(r, y, parse, fmt)
    ensures YearValueOk(c, y, parse)
  {
  }

  /** `not record`: an empty dictionary. */
  predicate Blank(r: Record) {
    |r| == 0
  }

  /** What `clean_records` returns, with what it adds to the cleaner's counters. */
  datatype CleanBatch = CleanBatch(records: seq<Record>, discarded: nat, cleaned: nat)

  /** The counter behaviour of `clean_record`: an empty record gives nothing
      and counts nothing, another record is discarded or returned, and only a
      returned record can count as cleaned. */
  ghost predicate CountsHonest(clean: Record -> CleanOutcome) {
    forall r :: && (clean(r).record.None? ==> clean(r).discarded == (if Blank(r) then 0 else 1) && clean(r).cleaned == 0)
                && (clean(r).record.Some? ==> !Blank(r) && clean(r).discarded == 0 && clean(r).cleaned <= 1)
  }

  lemma CleanRecordHonest(parse: string -> Option<real>, fmt: real -> string)
    ensures CountsHonest(CleanerOf(parse, fmt))
  {
  }

  /** The record a cleaner returns, if any. */
  function Kept(clean: Record -> CleanOutcome): Record -> Option<Record> {
    r => clean(r).record
  }

  /** `clean_record` with the float parser and formatter fixed. */
  function CleanerOf(parse: string -> Option<real>, fmt: real -> string): Record -> CleanOutcome {
    r => CleanRecord(r, parse, fmt)
  }

  /** `clean_records` for any single-record cleaner with honest counters. */
  function CleanAll(rs: seq<Record>, clean: Record -> CleanOutcome): (b: CleanBatch)
    requires CountsHonest(clean)
    ensures |b.records| + b.discarded + |Filter(rs, Blank)| == |rs|
    ensures b.cleaned <= |b.records|
    ensures forall x :: x in b.records ==> exists i :: 0 <= i < |rs| && clean(rs[i]).record == Some(x)
  {
    if |rs| == 0 then CleanBatch([], 0, 0)
    else
      var init := rs[..|rs| - 1];
      var b := CleanAll(init, clean);
      var o := clean(rs[|rs| - 1]);
      assert rs == init + [rs[|rs| - 1]];
      assert forall i :: 0 <= i < |init| ==> rs[i] == init[i];
      match o.record
      case None => CleanBatch(b.records, b.discarded + o.discarded, b.cleaned)
      case Some(x) => CleanBatch(b.records + [x], b.discarded, b.cleaned + o.cleaned)
  }

  /** The batch holds what the cleaner returns, in input order. */
  lemma {:induction false} CleanAllKept(rs: seq<Record>, clean: Record -> CleanOutcome)
    requires CountsHonest(clean)
    ensures CleanAll(rs, clean).records == FilterMap(rs, Kept(clean))
    decreases |rs|
  {
    if |rs| > 0 {
      CleanAllKept(rs[..|rs| - 1], clean);
    }
  }

  /** `clean_records`: the records that clean, in input order.  Every input
      record is either returned, discarded or empty, and only returned
      records can count as cleaned. */
  function CleanRecords(rs: seq<Record>, parse: string -> Option<real>, fmt: real -> string): (b: CleanBatch)
    ensures |b.records| + b.discarded + |Filter(rs, Blank)| == |rs|
    ensures b.cleaned <= |b.records|
    ensures forall x :: x in b.records ==> exists i :: 0 <= i < |rs| && CleanRecord(rs[i], parse, fmt).record == Some(x)
    ensures b.records == FilterMap(rs, Kept(CleanerOf(parse, fmt)))
  {
    CleanRecordHonest(parse, fmt);
    CleanAllKept(rs, CleanerOf(parse, fmt));
    CleanAll(rs, CleanerOf(parse, fmt))
  }
}
