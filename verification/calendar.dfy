/** Proleptic Gregorian dates as Python's `datetime.date` handles them, and
    `datetime.strptime` / `strftime` for the three formats the modelled code
    uses (`%Y%m%d`, `%Y-%m-%d`, `%Y-%m`). */
module Calendar {
  import opened Wrappers
  import opened Text

  datatype Date = Date(year: int, month: int, day: int)

  predicate IsLeap(y: int) {
    y % 4 == 0 && (y % 100 != 0 || y % 400 == 0)
  }

  function DaysInMonth(y: int, m: int): (n: int)
    requires 1 <= m <= 12
    ensures 28 <= n <= 31
  {
    if m == 2 then (if IsLeap(y) then 29 else 28)
    else if m == 4 || m == 6 || m == 9 || m == 11 then 30
    else 31
  }

  /** A date `datetime.date` accepts: years 1 through 9999 (MINYEAR, MAXYEAR). */
  predicate IsValid(d: Date) {
    1 <= d.year <= 9999 && 1 <= d.month <= 12 && 1 <= d.day <= DaysInMonth(d.year, d.month)
  }

  // ---- strftime("%Y-%m-%d") ----

  function DigitChar(n: nat): (c: char)
    requires n < 10
    ensures IsDigit(c) && DigitValue(c) == n
  {
    ('0' as int + n) as char
  }

  /** `str(n)`: decimal digits without leading zeros. */
  function DecimalString(n: nat): (s: string)
    ensures |s| > 0 && AllDigits(s)
    ensures DecimalValue(s) == n
    decreases n
  {
    if n < 10 then [DigitChar(n)]
    else
      var s := DecimalString(n / 10) + [DigitChar(n % 10)];
      assert s[..|s| - 1] == DecimalString(n / 10);
      s
  }

  lemma {:induction false} DecimalStringLength(n: nat)
    ensures 1000 <= n <= 9999 ==> |DecimalString(n)| == 4
    ensures 100 <= n <= 999 ==> |DecimalString(n)| == 3
    ensures 10 <= n <= 99 ==> |DecimalString(n)| == 2
    ensures n <= 9 ==> |DecimalString(n)| == 1
  {
    if n >= 10 {
      DecimalStringLength(n / 10);
    }
  }

  /** `%02d` for a number below 100. */
  function Pad2(n: nat): (s: string)
    requires n < 100
    ensures |s| == 2 && AllDigits(s) && DecimalValue(s) == n
  {
    var s := [DigitChar(n / 10), DigitChar(n % 10)];
    assert s[..1] == [DigitChar(n / 10)];
    assert s[..1][..0] == [];
    assert DecimalValue(s[..1]) == n / 10;
    s
  }

  /** The text `%Y<sep>%m<sep>%d` lays out for three fields, whether or not
      they form a date. */
  function Layout(y: nat, m: nat, dd: nat, sep: string): (s: string)
    requires m < 100 && dd < 100
  {
    DecimalString(y) + sep + Pad2(m) + sep + Pad2(dd)
  }

  /** `date.strftime("%Y-%m-%d")` with the C library's `%Y`, which does not pad
      years below 1000 to four digits. */
  function Render(d: Date): (s: string)
    requires IsValid(d)
  {
    Layout(d.year, d.month, d.day, "-")
  }

  // ---- strptime ----

  /** The directives of the formats used: `%Y`, `%m`, `%d` and a literal character. */
  datatype Directive = Year | Month | Day | Lit(c: char)

  /** The positions where directive `dir` can end when started at `p`, in the
      order the alternatives of its regular expression are tried:
      `%Y` is `\d\d\d\d`, `%m` is `1[0-2]|0[1-9]|[1-9]` and
      `%d` is `3[01]|[12]\d|0[1-9]|[1-9]| [1-9]`. */
  function Ends(dir: Directive, s: string, p: nat): (es: seq<nat>)
    requires p <= |s|
    ensures |es| <= 5
    ensures forall k :: 0 <= k < |es| ==> p < es[k] <= |s|
  {
    var has2 := p + 2 <= |s|;
    var has1 := p + 1 <= |s|;
    match dir
    case Year => if p + 4 <= |s| && AllDigits(s[p..p + 4]) then [p + 4] else []
    case Month =>
      (if has2 && s[p] == '1' && '0' <= s[p + 1] <= '2' then [p + 2] else []) +
      (if has2 && s[p] == '0' && '1' <= s[p + 1] <= '9' then [p + 2] else []) +
      (if has1 && '1' <= s[p] <= '9' then [p + 1] else [])
    case Day =>
      (if has2 && s[p] == '3' && '0' <= s[p + 1] <= '1' then [p + 2] else []) +
      (if has2 && '1' <= s[p] <= '2' && IsDigit(s[p + 1]) then [p + 2] else []) +
      (if has2 && s[p] == '0' && '1' <= s[p + 1] <= '9' then [p + 2] else []) +
      (if has1 && '1' <= s[p] <= '9' then [p + 1] else []) +
      (if has2 && s[p] == ' ' && '1' <= s[p + 1] <= '9' then [p + 2] else [])
    case Lit(c) => if has1 && s[p] == c then [p + 1] else []
  }

  /** `re.match` of the format's pattern at `p`: the end position of each
      directive for the first combination of alternatives, in backtracking
      order, that lets the whole pattern match.  The pattern has no end anchor. */
  function MatchFrom(fmt: seq<Directive>, s: string, p: nat): (r: Option<seq<nat>>)
    requires p <= |s|
    ensures r.Some? ==> |r.value| == |fmt|
    ensures r.Some? ==> forall k :: 0 <= k < |fmt| ==> r.value[k] <= |s|
    decreases |fmt|, 6
  {
    if |fmt| == 0 then Some([]) else FirstAlternative(fmt, s, p, Ends(fmt[0], s, p))
  }

  function FirstAlternative(fmt: seq<Directive>, s: string, p: nat, ends: seq<nat>): (r: Option<seq<nat>>)
    requires |fmt| > 0 && p <= |s|
    requires |ends| <= 5 && forall k :: 0 <= k < |ends| ==> p < ends[k] <= |s|
    ensures r.Some? ==> |r.value| == |fmt|
    ensures r.Some? ==> forall k :: 0 <= k < |fmt| ==> r.value[k] <= |s|
    decreases |fmt|, |ends|
  {
    if |ends| == 0 then None
    else match MatchFrom(fmt[1..], s, ends[0])
      case Some(rest) => Some([ends[0]] + rest)
      case None => FirstAlternative(fmt, s, p, ends[1..])
  }

  /** The integer a matched field denotes (`int(text)`, which ignores the
      leading space `%d` may match). */
  function FieldValue(text: string): nat
  {
    if |text| > 0 && text[0] == ' ' && AllDigits(text[1..]) then DecimalValue(text[1..])
    else if AllDigits(text) then DecimalValue(text)
    else 0
  }

  /** The value of the first directive equal to `dir`, or `default` when the
      format has none (`strptime` defaults: year 1900, month 1, day 1). */
  function FieldOf(fmt: seq<Directive>, ends: seq<nat>, s: string, dir: Directive, default: nat, start: nat): nat
    requires |ends| == |fmt|
    requires start <= |s| && forall k :: 0 <= k < |ends| ==> ends[k] <= |s|
    decreases |fmt|
  {
    if |fmt| == 0 then default
    else if fmt[0] == dir && start <= ends[0] then FieldValue(s[start..ends[0]])
    else if start <= ends[0] then FieldOf(fmt[1..], ends[1..], s, dir, default, ends[0])
    else default
  }

  /** `datetime.strptime(s, fmt)`: `None` where Python raises `ValueError`
      (no match, unconverted data remains, or a day outside the month, year 0). */
  function Strptime(fmt: seq<Directive>, s: string): (r: Option<Date>)
    requires |fmt| > 0
    ensures r.Some? ==> IsValid(r.value)
  {
    match MatchFrom(fmt, s, 0)
    case None => None
    case Some(ends) =>
      if ends[|ends| - 1] != |s| then None
      else
        var d := Date(FieldOf(fmt, ends, s, Year, 1900, 0),
                      FieldOf(fmt, ends, s, Month, 1, 0),
                      FieldOf(fmt, ends, s, Day, 1, 0));
        if IsValid(d) then Some(d) else None
  }

  const CompactFormat: seq<Directive> := [Year, Month, Day]
  const DashFormat: seq<Directive> := [Year, Lit('-'), Month, Lit('-'), Day]
  const MonthFormat: seq<Directive> := [Year, Lit('-'), Month]
  /** `date.strftime("%Y%m%d")` for a four-digit year. */
  function RenderCompact(d: Date): (s: string)
    requires IsValid(d)
  {
    Layout(d.year, d.month, d.day, "")
  }

  /** The first alternative of `%m` matches a two-digit month exactly. */
  lemma MonthMatchesPad2(s: string, p: nat, m: int)
    requires 1 <= m <= 12 && p + 2 <= |s| && s[p..p + 2] == Pad2(m)
    ensures |Ends(Month, s, p)| > 0 && Ends(Month, s, p)[0] == p + 2
  {
    assert s[p] == Pad2(m)[0] && s[p + 1] == Pad2(m)[1];
  }

  /** The first alternative of `%d` matches a two-digit day exactly. */
  lemma DayMatchesPad2(s: string, p: nat, d: int)
    requires 1 <= d <= 31 && p + 2 <= |s| && s[p..p + 2] == Pad2(d)
    ensures |Ends(Day, s, p)| > 0 && Ends(Day, s, p)[0] == p + 2
  {
    assert s[p] == Pad2(d)[0] && s[p + 1] == Pad2(d)[1];
  }

  /** When the rest of the pattern matches after the first alternative of the
      first directive, that alternative is the one taken. */
  lemma MatchFirst(fmt: seq<Directive>, s: string, p: nat, e: nat, rest: seq<nat>)
    requires |fmt| > 0 && p <= |s|
    requires |Ends(fmt[0], s, p)| > 0 && Ends(fmt[0], s, p)[0] == e
    requires MatchFrom(fmt[1..], s, e) == Some(rest)
    ensures MatchFrom(fmt, s, p) == Some([e] + rest)
  {
  }

  /** The `%Y-%m-%d` pattern matches a ten-character string laid out as
      `dddd-mm-dd` with every directive taking its first alternative. */
  lemma DashMatch(s: string)
    requires |s| == 10 && AllDigits(s[0..4]) && s[4] == '-' && s[7] == '-'
    requires |Ends(Month, s, 5)| > 0 && Ends(Month, s, 5)[0] == 7
    requires |Ends(Day, s, 8)| > 0 && Ends(Day, s, 8)[0] == 10
    ensures MatchFrom(DashFormat, s, 0) == Some([4, 5, 7, 8, 10])
  {
    DashTailMatch(s);
    assert Ends(Year, s, 0) == [4];
    assert DashFormat[1..] == [Lit('-'), Month, Lit('-'), Day];
    MatchFirst(DashFormat, s, 0, 4, [5, 7, 8, 10]);
    assert [4] + [5, 7, 8, 10] == [4, 5, 7, 8, 10];
  }

  /** After the year, `-%m-%d` matches the rest of a `dddd-mm-dd` string. */
  lemma DashTailMatch(s: string)
    requires |s| == 10 && s[4] == '-' && s[7] == '-'
    requires |Ends(Month, s, 5)| > 0 && Ends(Month, s, 5)[0] == 7
    requires |Ends(Day, s, 8)| > 0 && Ends(Day, s, 8)[0] == 10
    ensures MatchFrom([Lit('-'), Month, Lit('-'), Day], s, 4) == Some([5, 7, 8, 10])
  {
    DayTailMatch(s);
    var f2: seq<Directive> := [Month, Lit('-'), Day];
    var f1: seq<Directive> := [Lit('-'), Month, Lit('-'), Day];
    assert f2[1..] == [Lit('-'), Day] && f1[1..] == f2;
    MatchFirst(f2, s, 5, 7, [8, 10]);
    assert [7] + [8, 10] == [7, 8, 10];
    assert Ends(Lit('-'), s, 4) == [5];
    MatchFirst(f1, s, 4, 5, [7, 8, 10]);
    assert [5] + [7, 8, 10] == [5, 7, 8, 10];
  }

  /** After the month, `-%d` matches the rest of a `dddd-mm-dd` string. */
  lemma DayTailMatch(s: string)
    requires |s| == 10 && s[7] == '-'
    requires |Ends(Day, s, 8)| > 0 && Ends(Day, s, 8)[0] == 10
    ensures MatchFrom([Lit('-'), Day], s, 7) == Some([8, 10])
  {
    var f4: seq<Directive> := [Day];
    var f3: seq<Directive> := [Lit('-'), Day];
    assert f4[1..] == [] && f3[1..] == f4;
    MatchFirst(f4, s, 8, 10, []);
    assert [10] + [] == [10];
    assert Ends(Lit('-'), s, 7) == [8];
    MatchFirst(f3, s, 7, 8, [10]);
    assert [8] + [10] == [8, 10];
  }

  /** `strptime(s, "%Y-%m-%d")` on the four-digit-year layout of three
      fields reads the fields back, and fails exactly when they do not form a
      calendar date (`day is out of range for month`). */
  lemma StrptimeDashFields(y: nat, m: nat, dd: nat)
    requires 1000 <= y <= 9999 && 1 <= m <= 12 && 1 <= dd <= 31
    ensures Strptime(DashFormat, Layout(y, m, dd, "-")) == if IsValid(Date(y, m, dd)) then Some(Date(y, m, dd)) else None
  {
    var s := Layout(y, m, dd, "-");
    DashShape(y, m, dd);
    MonthMatchesPad2(s, 5, m);
    DayMatchesPad2(s, 8, dd);
    DashMatch(s);
    DashFieldsRead(s, y, m, dd);
    StrptimeOfMatch(DashFormat, s, [4, 5, 7, 8, 10], y, m, dd);
  }

  /** Where the fields sit in the `%Y-%m-%d` layout of a four-digit year. */
  lemma DashShape(y: nat, m: nat, dd: nat)
    requires 1000 <= y <= 9999 && 1 <= m <= 12 && 1 <= dd <= 31
    ensures var s := Layout(y, m, dd, "-");
      && |s| == 10 && s[0..4] == DecimalString(y) && s[4] == '-' && s[7] == '-'
      && s[5..7] == Pad2(m) && s[8..10] == Pad2(dd)
  {
    DecimalStringLength(y);
  }

  /** Where the fields sit in the `%Y%m%d` layout of a four-digit year. */
  lemma CompactShape(y: nat, m: nat, dd: nat)
    requires 1000 <= y <= 9999 && 1 <= m <= 12 && 1 <= dd <= 31
    ensures var s := Layout(y, m, dd, "");
      && |s| == 8 && s[0..4] == DecimalString(y) && s[4..6] == Pad2(m) && s[6..8] == Pad2(dd)
  {
    DecimalStringLength(y);
  }

  /** `int()` of the decimal text of `n` is `n`. */
  lemma ReadDecimal(text: string, n: nat)
    requires text == DecimalString(n)
    ensures FieldValue(text) == n
  {
    assert IsDigit(text[0]);
  }

  /** `int()` of a two-digit field is its value. */
  lemma ReadPad2(text: string, n: nat)
    requires n < 100 && text == Pad2(n)
    ensures FieldValue(text) == n
  {
    assert IsDigit(text[0]);
  }

  /** The fields of the `%Y-%m-%d` layout, at the positions its match gives. */
  lemma DashFieldsRead(s: string, y: nat, m: nat, dd: nat)
    requires m < 100 && dd < 100
    requires |s| == 10 && s[0..4] == DecimalString(y) && s[5..7] == Pad2(m) && s[8..10] == Pad2(dd)
    ensures FieldOf(DashFormat, [4, 5, 7, 8, 10], s, Year, 1900, 0) == y
    ensures FieldOf(DashFormat, [4, 5, 7, 8, 10], s, Month, 1, 0) == m
    ensures FieldOf(DashFormat, [4, 5, 7, 8, 10], s, Day, 1, 0) == dd
  {
    var fmt := DashFormat;
    var ends := [4, 5, 7, 8, 10];
    ReadDecimal(s[0..4], y);
    ReadPad2(s[5..7], m);
    ReadPad2(s[8..10], dd);
    assert FieldOf(fmt[2..], ends[2..], s, Month, 1, 5) == m;
    assert FieldOf(fmt[4..], ends[4..], s, Day, 1, 8) == dd;
  }

  /** The fields of the `%Y%m%d` layout, at the positions its match gives. */
  lemma CompactFieldsRead(s: string, y: nat, m: nat, dd: nat)
    requires m < 100 && dd < 100
    requires |s| == 8 && s[0..4] == DecimalString(y) && s[4..6] == Pad2(m) && s[6..8] == Pad2(dd)
    ensures FieldOf(CompactFormat, [4, 6, 8], s, Year, 1900, 0) == y
    ensures FieldOf(CompactFormat, [4, 6, 8], s, Month, 1, 0) == m
    ensures FieldOf(CompactFormat, [4, 6, 8], s, Day, 1, 0) == dd
  {
    var fmt := CompactFormat;
    var ends := [4, 6, 8];
    ReadDecimal(s[0..4], y);
    ReadPad2(s[4..6], m);
    ReadPad2(s[6..8], dd);
    assert FieldOf(fmt[2..], ends[2..], s, Day, 1, 6) == dd;
  }

  /** Once the pattern matches the whole string and the fields are read,
      `strptime` gives the date they form, or fails when they form none. */
  lemma StrptimeOfMatch(fmt: seq<Directive>, s: string, ends: seq<nat>, y: nat, m: nat, dd: nat)
    requires |fmt| > 0 && MatchFrom(fmt, s, 0) == Some(ends) && ends[|ends| - 1] == |s|
    requires FieldOf(fmt, ends, s, Year, 1900, 0) == y
    requires FieldOf(fmt, ends, s, Month, 1, 0) == m
    requires FieldOf(fmt, ends, s, Day, 1, 0) == dd
    ensures Strptime(fmt, s) == if IsValid(Date(y, m, dd)) then Some(Date(y, m, dd)) else None
  {
  }

  /** The `%Y%m%d` pattern matches an eight-character string laid out as
      `ddddmmdd` with every directive taking its first alternative. */
  lemma CompactMatch(s: string)
    requires |s| == 8 && AllDigits(s[0..4])
    requires |Ends(Month, s, 4)| > 0 && Ends(Month, s, 4)[0] == 6
    requires |Ends(Day, s, 6)| > 0 && Ends(Day, s, 6)[0] == 8
    ensures MatchFrom(CompactFormat, s, 0) == Some([4, 6, 8])
  {
    var fmt := CompactFormat;
    assert Ends(Year, s, 0) == [4];
    var f2: seq<Directive> := [Day];
    var f1: seq<Directive> := [Month, Day];
    assert f2[1..] == [] && f1[1..] == f2 && fmt[1..] == f1;
    MatchFirst(f2, s, 6, 8, []);
    assert [8] + [] == [8];
    MatchFirst(f1, s, 4, 6, [8]);
    assert [6] + [8] == [6, 8];
    MatchFirst(fmt, s, 0, 4, [6, 8]);
    assert [4] + [6, 8] == [4, 6, 8];
  }

  /** `strptime(s, "%Y%m%d")` on the eight-digit layout of three fields reads
      the fields back, and fails exactly when they do not form a calendar date. */
  lemma StrptimeCompactFields(y: nat, m: nat, dd: nat)
    requires 1000 <= y <= 9999 && 1 <= m <= 12 && 1 <= dd <= 31
    ensures Strptime(CompactFormat, Layout(y, m, dd, "")) == if IsValid(Date(y, m, dd)) then Some(Date(y, m, dd)) else None
  {
    var s := Layout(y, m, dd, "");
    CompactShape(y, m, dd);
    MonthMatchesPad2(s, 4, m);
    DayMatchesPad2(s, 6, dd);
    CompactMatch(s);
    CompactFieldsRead(s, y, m, dd);
    StrptimeOfMatch(CompactFormat, s, [4, 6, 8], y, m, dd);
  }

  /** `strptime(d.strftime("%Y-%m-%d"), "%Y-%m-%d")` gives back `d` for every
      date with a four-digit year. */
  lemma StrptimeRender(d: Date)
    requires IsValid(d) && d.year >= 1000
    ensures Strptime(DashFormat, Render(d)) == Some(d)
  {
    StrptimeDashFields(d.year, d.month, d.day);
  }

  /** `strptime(d.strftime("%Y%m%d"), "%Y%m%d")` gives back `d` for every date
      with a four-digit year. */
  lemma StrptimeRenderCompact(d: Date)
    requires IsValid(d) && d.year >= 1000
    ensures Strptime(CompactFormat, RenderCompact(d)) == Some(d)
  {
    StrptimeCompactFields(d.year, d.month, d.day);
  }

  /** A match needs at least one character per directive. */
  lemma {:induction false} MatchRoom(fmt: seq<Directive>, s: string, p: nat)
    requires p <= |s|
    ensures MatchFrom(fmt, s, p).Some? ==> p + |fmt| <= |s|
    decreases |fmt|, 6
  {
    if |fmt| > 0 {
      AlternativeRoom(fmt, s, p, Ends(fmt[0], s, p));
    }
  }

  lemma {:induction false} AlternativeRoom(fmt: seq<Directive>, s: string, p: nat, ends: seq<nat>)
    requires |fmt| > 0 && p <= |s|
    requires |ends| <= 5 && forall k :: 0 <= k < |ends| ==> p < ends[k] <= |s|
    ensures FirstAlternative(fmt, s, p, ends).Some? ==> p + |fmt| <= |s|
    decreases |fmt|, |ends|
  {
    if |ends| > 0 {
      MatchRoom(fmt[1..], s, ends[0]);
      AlternativeRoom(fmt, s, p, ends[1..]);
    }
  }

  /** `YYYY-MM`: `strptime` with `%Y-%m` gives the first of the month, and
      `%Y-%m-%d` does not match at all. */
  lemma StrptimeMonthFields(y: nat, m: nat)
    requires 1000 <= y <= 9999 && 1 <= m <= 12
    ensures Strptime(MonthFormat, DecimalString(y) + "-" + Pad2(m)) == Some(Date(y, m, 1))
    ensures Strptime(DashFormat, DecimalString(y) + "-" + Pad2(m)) == None
  {
    MonthFormatFields(y, m);
    DashNeedsRoom(y, m);
  }

  lemma MonthFormatFields(y: nat, m: nat)
    requires 1000 <= y <= 9999 && 1 <= m <= 12
    ensures Strptime(MonthFormat, DecimalString(y) + "-" + Pad2(m)) == Some(Date(y, m, 1))
  {
    var s := DecimalString(y) + "-" + Pad2(m);
    MonthShape(y, m);
    MonthMatch(s, m);
    MonthFieldsRead(s, y, m);
    StrptimeOfMatch(MonthFormat, s, [4, 5, 7], y, m, 1);
  }

  /** Where the fields sit in the `%Y-%m` layout of a four-digit year. */
  lemma MonthShape(y: nat, m: nat)
    requires 1000 <= y <= 9999 && 1 <= m <= 12
    ensures var s := DecimalString(y) + "-" + Pad2(m);
      && |s| == 7 && s[0..4] == DecimalString(y) && AllDigits(s[0..4]) && s[4] == '-' && s[5..7] == Pad2(m)
  {
    DecimalStringLength(y);
  }

  /** The fields of the `%Y-%m` layout, at the positions its match gives;
      the day defaults to 1. */
  lemma MonthFieldsRead(s: string, y: nat, m: nat)
    requires m < 100
    requires |s| == 7 && s[0..4] == DecimalString(y) && s[5..7] == Pad2(m)
    ensures FieldOf(MonthFormat, [4, 5, 7], s, Year, 1900, 0) == y
    ensures FieldOf(MonthFormat, [4, 5, 7], s, Month, 1, 0) == m
    ensures FieldOf(MonthFormat, [4, 5, 7], s, Day, 1, 0) == 1
  {
    var ends := [4, 5, 7];
    ReadDecimal(s[0..4], y);
    ReadPad2(s[5..7], m);
    assert FieldOf(MonthFormat[2..], ends[2..], s, Month, 1, 5) == m;
  }

  /** The `%Y-%m` pattern matches the first seven characters of a string that
      starts `dddd-mm`. */
  lemma MonthMatch(s: string, m: nat)
    requires |s| >= 7 && AllDigits(s[0..4]) && s[4] == '-'
    requires 1 <= m <= 12 && s[5..7] == Pad2(m)
    ensures MatchFrom(MonthFormat, s, 0) == Some([4, 5, 7])
  {
    MonthTailMatch(s, m);
    assert Ends(Year, s, 0) == [4];
    assert MonthFormat[1..] == [Lit('-'), Month];
    MatchFirst(MonthFormat, s, 0, 4, [5, 7]);
    assert [4] + [5, 7] == [4, 5, 7];
  }

  /** After the year, `-%m` matches the next three characters of a string
      that starts `dddd-mm`. */
  lemma MonthTailMatch(s: string, m: nat)
    requires |s| >= 7 && s[4] == '-'
    requires 1 <= m <= 12 && s[5..7] == Pad2(m)
    ensures MatchFrom([Lit('-'), Month], s, 4) == Some([5, 7])
  {
    MonthMatchesPad2(s, 5, m);
    var f2: seq<Directive> := [Month];
    var f1: seq<Directive> := [Lit('-'), Month];
    assert f2[1..] == [] && f1[1..] == f2;
    MatchFirst(f2, s, 5, 7, []);
    assert [7] + [] == [7];
    assert Ends(Lit('-'), s, 4) == [5];
    MatchFirst(f1, s, 4, 5, [7]);
    assert [5] + [7] == [5, 7];
  }

  /** The dash format runs out of characters after `YYYY-`. */
  lemma DashNeedsRoom(y: nat, m: nat)
    requires 1000 <= y <= 9999 && 1 <= m <= 12
    ensures Strptime(DashFormat, DecimalString(y) + "-" + Pad2(m)) == None
  {
    var s := DecimalString(y) + "-" + Pad2(m);
    DecimalStringLength(y);
    assert |s| == 7;
    assert s[0..4] == DecimalString(y) && s[4] == '-';
    assert Ends(Year, s, 0) == [4] && Ends(Lit('-'), s, 4) == [5];
    var d2 := DashFormat[2..];
    MatchRoom(d2, s, 5);
    assert FirstAlternative(DashFormat[1..], s, 4, [5][1..]) == None;
    assert MatchFrom(DashFormat[1..], s, 4) == None;
    assert FirstAlternative(DashFormat, s, 0, [4][1..]) == None;
  }

  /** `YYYY-MM-DD`: `%Y-%m` matches only the first seven characters, so
      `strptime` rejects the string (`unconverted data remains`). */
  lemma StrptimeMonthOnLayout(y: nat, m: nat, dd: nat)
    requires 1000 <= y <= 9999 && 1 <= m <= 12 && 1 <= dd <= 31
    ensures Strptime(MonthFormat, Layout(y, m, dd, "-")) == None
  {
    var s := Layout(y, m, dd, "-");
    DecimalStringLength(y);
    assert |s| == 10;
    assert s[0..4] == DecimalString(y) && s[4] == '-' && s[5..7] == Pad2(m);
    MonthMatch(s, m);
  }
}
