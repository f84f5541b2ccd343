/** The local cache stores for the stock list and the industry mapping: how
    records are normalised before they are written, the in-memory copy kept
    by `load` and `save`, and the code-prefix search over the saved table.
    SQLite and pickle are left out: a saved table is the map from code to row
    that `INSERT OR REPLACE` on the `code` primary key leaves behind, and the
    freshness check is the metadata document's. */
module CacheStore {
  import opened Wrappers
  import opened Text
  import opened Seqs
  import opened Records
  import opened Ordering
  import CM = CacheMetadata

  /** Python's `a or b`. */
  function Or(a: Cell, b: Cell): (r: Cell)
    ensures Truthy(a) ==> r == a
    ensures !Truthy(a) ==> r == b
  {
    if Truthy(a) then a else b
  }

  /** `(value or "").strip()`, or `None` when a truthy value is not a string
      and `.strip` raises. */
  function CodeText(c: Cell): (r: Option<string>)
    ensures r.Some? ==> IsStripped(r.value)
    ensures !Truthy(c) ==> r == Some("")
    ensures Truthy(c) ==> (r.Some? <==> c.Str?)
  {
    if !Truthy(c) then Some("") else if c.Str? then Some(Strip(c.s)) else None
  }

  /** A field that went through `value or ""`: truthy, or the empty string. */
  predicate Defaulted(c: Cell) {
    Truthy(c) || c == Str("")
  }

  // ---- StockCacheStore._normalize_records ----

  /** One row of the stock list, as the store keeps it. */
  datatype StockEntry = StockEntry(code: string, name: Cell, market: Cell, listDate: Cell, source: Cell, updatedAt: Cell)

  function EntryCode(e: StockEntry): string {
    e.code
  }

  /** The entry written for a record whose stripped code is `code`. */
  function StockEntryOf(r: Json, code: string, now: string): StockEntry {
    StockEntry(code,
               Or(CM.JGet(r, "name"), Str("")),
               Or(CM.JGet(r, "market"), Str("")),
               Or(CM.JGet(r, "list_date"), Str("")),
               Or(CM.JGet(r, "source"), Or(CM.JGet(r, "data_source"), Str(""))),
               Or(CM.JGet(r, "updated_at"), Str(now)))
  }

  /** A record whose code is truthy but not a string stops the whole call. */
  predicate StockRaises(r: Json) {
    CodeText(CM.JGet(r, "code")).None?
  }

  /** The entry a record contributes: none for a blank stripped code. */
  function KeptStock(r: Json, now: string): Option<StockEntry> {
    match CodeText(CM.JGet(r, "code"))
    case Some(code) => if |code| > 0 then Some(StockEntryOf(r, code, now)) else None
    case None => None
  }

  function StockKept(now: string): Json -> Option<StockEntry> {
    (r: Json) => KeptStock(r, now)
  }

  /** What a normalised stock entry looks like: a non-blank stripped code and
      every other field defaulted; `updated_at` is never blank when the
      clock's text is not. */
  predicate NormalStock(e: StockEntry, now: string) {
    && |e.code| > 0 && IsStripped(e.code)
    && Defaulted(e.name) && Defaulted(e.market) && Defaulted(e.listDate) && Defaulted(e.source)
    && (Truthy(e.updatedAt) || e.updatedAt == Str(now))
  }

  /** `_normalize_records` of the stock store, or `None` when it raises.
      The kept entries are sorted by code, stably. */
  function NormalizeStocks(records: seq<Json>, now: string): (r: Option<seq<StockEntry>>)
    ensures r.None? <==> exists i :: 0 <= i < |records| && StockRaises(records[i])
    ensures r.Some? ==> multiset(r.value) == multiset(FilterMap(records, StockKept(now)))
    ensures r.Some? ==> forall i, j :: 0 <= i < j < |r.value| ==> StrLe(r.value[i].code, r.value[j].code)
    ensures r.Some? ==> forall k :: WithKey(r.value, EntryCode, k) == WithKey(FilterMap(records, StockKept(now)), EntryCode, k)
  {
    if exists i :: 0 <= i < |records| && StockRaises(records[i]) then None
    else Some(SortByStringKey(FilterMap(records, StockKept(now)), EntryCode))
  }

  /** An entry is in the normalised list exactly when some record with a
      non-blank code produces it, and then it is a normal entry. */
  lemma NormalizedStock(records: seq<Json>, now: string, e: StockEntry)
    requires NormalizeStocks(records, now).Some?
    ensures e in NormalizeStocks(records, now).value <==>
              exists rec :: rec in records && KeptStock(rec, now) == Some(e)
    ensures e in NormalizeStocks(records, now).value ==> NormalStock(e, now)
  {
    FilterMapContents(records, StockKept(now), e);
    assert e in NormalizeStocks(records, now).value <==> e in multiset(FilterMap(records, StockKept(now)));
    if e in NormalizeStocks(records, now).value {
      var rec :| rec in records && KeptStock(rec, now) == Some(e);
      assert CodeText(CM.JGet(rec, "code")) == Some(e.code);
    }
  }

  /** The record a stored entry is read back as (`dict(row)`). */
  function StockJson(e: StockEntry): (j: Json)
    ensures j.Keys == {"code", "name", "market", "list_date", "source", "updated_at"}
  {
    map["code" := Str(e.code), "name" := e.name, "market" := e.market, "list_date" := e.listDate,
        "source" := e.source, "updated_at" := e.updatedAt]
  }

  function StockJsons(es: seq<StockEntry>): (js: seq<Json>)
    ensures |js| == |es|
  {
    seq(|es|, i requires 0 <= i < |es| => StockJson(es[i]))
  }

  /** A normal entry read back normalises to itself, whatever the clock says. */
  lemma StockEntryStable(e: StockEntry, now: string, later: string)
    requires |now| > 0 && NormalStock(e, now)
    ensures KeptStock(StockJson(e), later) == Some(e)
  {
    var j := StockJson(e);
    StripStripped(e.code);
    assert CM.JGet(j, "code") == Str(e.code);
    assert CM.JGet(j, "data_source") == Null;
  }

  /** Normal entries read back and normalised again come out unchanged and
      in order, and none of them stops the call. */
  lemma KeptStocksStable(es: seq<StockEntry>, now: string, later: string)
    requires |now| > 0 && forall i :: 0 <= i < |es| ==> NormalStock(es[i], now)
    ensures FilterMap(StockJsons(es), StockKept(later)) == es
    ensures forall i :: 0 <= i < |es| ==> !StockRaises(StockJsons(es)[i])
  {
    var js := StockJsons(es);
    forall i | 0 <= i < |es|
      ensures StockKept(later)(js[i]) == Some(es[i]) && !StockRaises(js[i])
    {
      StockEntryStable(es[i], now, later);
    }
    FilterMapAllSome(js, StockKept(later), es);
  }

  /** Normalising what the store holds changes nothing: saving the loaded
      list again writes the same list. */
  lemma NormalizeStocksIdempotent(records: seq<Json>, now: string, later: string)
    requires |now| > 0
    requires NormalizeStocks(records, now).Some?
    ensures NormalizeStocks(StockJsons(NormalizeStocks(records, now).value), later) == NormalizeStocks(records, now)
  {
    var es := NormalizeStocks(records, now).value;
    forall i | 0 <= i < |es| ensures NormalStock(es[i], now) {
      NormalizedStock(records, now, es[i]);
    }
    KeptStocksStable(es, now, later);
    SortByStringKeySorted(es, EntryCode);
  }

  // ---- IndustryCacheStore._normalize_records ----

  /** One industry classification, as the store keeps it under its code. */
  datatype IndustryEntry = IndustryEntry(level1: Cell, level2: Cell, level3: Cell, industry: Cell, source: Cell, updatedAt: Cell)

  /** The entry written for a classification dictionary. */
  function IndustryEntryOf(r: Json, now: string): IndustryEntry {
    IndustryEntry(Or(CM.JGet(r, "shenwan_level1"), Or(CM.JGet(r, "l1"), Str(""))),
                  Or(CM.JGet(r, "shenwan_level2"), Or(CM.JGet(r, "l2"), Str(""))),
                  Or(CM.JGet(r, "shenwan_level3"), Or(CM.JGet(r, "l3"), Str(""))),
                  Or(CM.JGet(r, "industry"), Str("")),
                  Or(CM.JGet(r, "source"), Or(CM.JGet(r, "data_source"), Str(""))),
                  Or(CM.JGet(r, "updated_at"), Str(now)))
  }

  /** An item raises when its key's text raises, or when its code is kept
      but its value is not a dictionary (`r.get` on it).  `key` is how an
      item's key becomes its code: `CodeText` in the store. */
  predicate RaisesBy(item: (Cell, Cell), key: Cell -> Option<string>) {
    || key(item.0).None?
    || (|key(item.0).value| > 0 && !item.1.Dict?)
  }

  /** The item is stored under `code`. */
  predicate KeptBy(item: (Cell, Cell), key: Cell -> Option<string>, code: string) {
    |code| > 0 && key(item.0) == Some(code)
  }

  function KeptByFn(key: Cell -> Option<string>, code: string): ((Cell, Cell)) -> bool {
    (item: (Cell, Cell)) => KeptBy(item, key, code)
  }

  /** `_normalize_records` of the industry store over the dictionary's items,
      or `None` when it raises.  Codes that come out the same keep the later
      item. */
  function NormalizeIndustriesBy(items: seq<(Cell, Cell)>, key: Cell -> Option<string>, now: string)
    : (r: Option<map<string, IndustryEntry>>)
    ensures r.None? <==> exists i :: 0 <= i < |items| && RaisesBy(items[i], key)
  {
    if |items| == 0 then Some(map[])
    else
      var init := items[..|items| - 1];
      var item := items[|items| - 1];
      var prev := NormalizeIndustriesBy(init, key, now);
      assert forall i :: 0 <= i < |init| ==> init[i] == items[i];
      if prev.None? || RaisesBy(item, key) then None
      else
        var code := key(item.0).value;
        if |code| == 0 then prev else Some(prev.value[code := IndustryEntryOf(item.1.fields, now)])
  }

  /** The store's normaliser: codes are `(code or "").strip()`. */
  function NormalizeIndustries(items: seq<(Cell, Cell)>, now: string): Option<map<string, IndustryEntry>> {
    NormalizeIndustriesBy(items, CodeText, now)
  }

  /** The codes kept are exactly those of the items with a non-blank code. */
  lemma {:induction false} IndustryCodes(items: seq<(Cell, Cell)>, key: Cell -> Option<string>, now: string, c: string)
    requires NormalizeIndustriesBy(items, key, now).Some?
    ensures c in NormalizeIndustriesBy(items, key, now).value <==> exists i :: 0 <= i < |items| && KeptBy(items[i], key, c)
    decreases |items|
  {
    if |items| > 0 {
      var init := items[..|items| - 1];
      assert forall i :: 0 <= i < |init| ==> init[i] == items[i];
      IndustryCodes(init, key, now, c);
    }
  }

  /** Each kept code holds the entry of the last item stored under it. */
  lemma {:induction false} IndustriesLastWins(items: seq<(Cell, Cell)>, key: Cell -> Option<string>, now: string, c: string)
    requires NormalizeIndustriesBy(items, key, now).Some?
    requires c in NormalizeIndustriesBy(items, key, now).value
    ensures var i := LastIndex(items, KeptByFn(key, c));
            && 0 <= i < |items| && items[i].1.Dict?
            && NormalizeIndustriesBy(items, key, now).value[c] == IndustryEntryOf(items[i].1.fields, now)
    decreases |items|
  {
    var init := items[..|items| - 1];
    var item := items[|items| - 1];
    if !KeptBy(item, key, c) {
      assert forall i :: 0 <= i < |init| ==> init[i] == items[i];
      IndustriesLastWins(init, key, now, c);
    }
  }

  /** What a normalised industry entry looks like. */
  predicate NormalIndustry(e: IndustryEntry, now: string) {
    && Defaulted(e.level1) && Defaulted(e.level2) && Defaulted(e.level3)
    && Defaulted(e.industry) && Defaulted(e.source)
    && (Truthy(e.updatedAt) || e.updatedAt == Str(now))
  }

  lemma IndustryEntryNormal(r: Json, now: string)
    ensures NormalIndustry(IndustryEntryOf(r, now), now)
  {
  }

  /** The dictionary a stored entry is read back as (the row without `code`). */
  function IndustryJson(e: IndustryEntry): (j: Json)
    ensures j.Keys == {"shenwan_level1", "shenwan_level2", "shenwan_level3", "industry", "source", "updated_at"}
  {
    map["shenwan_level1" := e.level1, "shenwan_level2" := e.level2, "shenwan_level3" := e.level3,
        "industry" := e.industry, "source" := e.source, "updated_at" := e.updatedAt]
  }

  /** A normal entry read back normalises to itself. */
  lemma IndustryEntryStable(e: IndustryEntry, now: string, later: string)
    requires |now| > 0 && NormalIndustry(e, now)
    ensures IndustryEntryOf(IndustryJson(e), later) == e
  {
    var j := IndustryJson(e);
    assert CM.JGet(j, "l1") == Null && CM.JGet(j, "l2") == Null && CM.JGet(j, "l3") == Null;
    assert CM.JGet(j, "data_source") == Null;
  }

  /** The items of a stored mapping, in the order of `codes`. */
  function IndustryItems(m: map<string, IndustryEntry>, codes: seq<string>): (items: seq<(Cell, Cell)>)
    requires forall i :: 0 <= i < |codes| ==> codes[i] in m
    ensures |items| == |codes|
  {
    seq(|codes|, i requires 0 <= i < |codes| => (Str(codes[i]), Dict(IndustryJson(m[codes[i]]), "")))
  }

  lemma {:induction false} IndustryItemsStable(m: map<string, IndustryEntry>, codes: seq<string>, key: Cell -> Option<string>,
                                              now: string, later: string)
    requires |now| > 0
    requires forall i :: 0 <= i < |codes| ==> codes[i] in m && |codes[i]| > 0 && key(Str(codes[i])) == Some(codes[i])
    requires forall c :: c in m ==> NormalIndustry(m[c], now)
    ensures var r := NormalizeIndustriesBy(IndustryItems(m, codes), key, later);
            && r.Some? && (forall x :: x in r.value <==> x in codes)
            && forall x :: x in r.value ==> r.value[x] == m[x]
    decreases |codes|
  {
    if |codes| > 0 {
      var init := codes[..|codes| - 1];
      var c := codes[|codes| - 1];
      assert codes == init + [c];
      IndustryItemsStable(m, init, key, now, later);
      IndustryItemsStep(m, codes, key, now, later);
    }
  }

  /** One more item, for a code already in its normal form. */
  lemma IndustryItemsStep(m: map<string, IndustryEntry>, codes: seq<string>, key: Cell -> Option<string>,
                          now: string, later: string)
    requires |now| > 0 && |codes| > 0
    requires forall i :: 0 <= i < |codes| ==> codes[i] in m
    requires var c := codes[|codes| - 1]; |c| > 0 && key(Str(c)) == Some(c) && NormalIndustry(m[c], now)
    requires NormalizeIndustriesBy(IndustryItems(m, codes[..|codes| - 1]), key, later).Some?
    ensures var c := codes[|codes| - 1];
            NormalizeIndustriesBy(IndustryItems(m, codes), key, later) ==
              Some(NormalizeIndustriesBy(IndustryItems(m, codes[..|codes| - 1]), key, later).value[c := m[c]])
  {
    var c := codes[|codes| - 1];
    var items := IndustryItems(m, codes);
    assert items[..|codes| - 1] == IndustryItems(m, codes[..|codes| - 1]);
    assert items[|codes| - 1] == (Str(c), Dict(IndustryJson(m[c]), ""));
    IndustryEntryStable(m[c], now, later);
  }

  /** Normalising what the store holds changes nothing, whatever order the
      dictionary's items come in. */
  lemma NormalizeIndustriesIdempotent(items: seq<(Cell, Cell)>, now: string, later: string, codes: seq<string>)
    requires |now| > 0
    requires NormalizeIndustries(items, now).Some?
    requires forall c :: c in codes <==> c in NormalizeIndustries(items, now).value
    ensures NormalizeIndustries(IndustryItems(NormalizeIndustries(items, now).value, codes), later) ==
              NormalizeIndustries(items, now)
  {
    var m := NormalizeIndustries(items, now).value;
    forall c | c in m ensures NormalIndustry(m[c], now) && |c| > 0 && CodeText(Str(c)) == Some(c) {
      IndustriesLastWins(items, CodeText, now, c);
      var i := LastIndex(items, KeptByFn(CodeText, c));
      IndustryEntryNormal(items[i].1.fields, now);
      StripStripped(c);
    }
    IndustryItemsStable(m, codes, CodeText, now, later);
    var r := NormalizeIndustries(IndustryItems(m, codes), later).value;
    SameMap(r, m);
  }

  lemma SameMap<K, V>(a: map<K, V>, b: map<K, V>)
    requires forall x :: x in a <==> x in b
    requires forall x :: x in a ==> a[x] == b[x]
    ensures a == b
  {
  }

  // ---- the saved tables ----

  /** Every row of a table sits under its own code. */
  predicate WellKeyed(t: map<string, StockEntry>) {
    forall c :: c in t ==> t[c].code == c
  }

  /** The `stocks` table `_save_to_db` leaves: one row per code, a later
      entry replacing an earlier one with the same code. */
  function StockTable(entries: seq<StockEntry>): (t: map<string, StockEntry>)
    ensures WellKeyed(t)
    ensures forall c :: c in t <==> exists i :: 0 <= i < |entries| && entries[i].code == c
    ensures forall i :: 0 <= i < |entries| && (forall j :: i < j < |entries| ==> entries[j].code != entries[i].code)
                        ==> t[entries[i].code] == entries[i]
  {
    if |entries| == 0 then map[]
    else
      var init := entries[..|entries| - 1];
      var e := entries[|entries| - 1];
      assert entries == init + [e];
      StockTableStep(init, e, StockTable(init));
      StockTable(init)[e.code := e]
  }

  /** One more entry written over a table of the earlier ones. */
  lemma StockTableStep(init: seq<StockEntry>, e: StockEntry, t0: map<string, StockEntry>)
    requires WellKeyed(t0)
    requires forall c :: c in t0 <==> exists i :: 0 <= i < |init| && init[i].code == c
    requires forall i :: 0 <= i < |init| && (forall j :: i < j < |init| ==> init[j].code != init[i].code)
                         ==> t0[init[i].code] == init[i]
    ensures var es, t := init + [e], t0[e.code := e];
            && WellKeyed(t)
            && (forall c :: c in t <==> exists i :: 0 <= i < |es| && es[i].code == c)
            && (forall i :: 0 <= i < |es| && (forall j :: i < j < |es| ==> es[j].code != es[i].code) ==> t[es[i].code] == es[i])
  {
    var es, t := init + [e], t0[e.code := e];
    forall c | c in t ensures exists i :: 0 <= i < |es| && es[i].code == c {
      if c != e.code {
        var i :| 0 <= i < |init| && init[i].code == c;
        assert es[i] == init[i];
      } else {
        assert es[|init|] == e;
      }
    }
    forall i | 0 <= i < |es| && (forall j :: i < j < |es| ==> es[j].code != es[i].code)
      ensures t[es[i].code] == es[i]
    {
      if i < |init| {
        assert es[|init|] == e && es[i] == init[i];
        assert forall j :: i < j < |init| ==> init[j] == es[j];
      }
    }
  }

  /** `_load_from_db` of the stock store: the rows in code order. */
  function StocksFromTable(t: map<string, StockEntry>): (rows: seq<StockEntry>)
    ensures |rows| == |t|
  {
    var codes := SortedFromSet(t.Keys);
    seq(|codes|, i requires 0 <= i < |codes| => t[codes[i]])
  }

  lemma StrLessAsymmetric(a: string, b: string)
    ensures !(StrLess(a, b) && StrLess(b, a))
  {
    if StrLess(a, b) && StrLess(b, a) {
      StrLessTransitive(a, b, a);
      StrLessIrreflexive(a);
    }
  }

  /** Two strictly increasing lists of the same strings start alike. */
  lemma SameHead(xs: seq<string>, ys: seq<string>)
    requires |xs| > 0 && |ys| > 0
    requires forall i, j :: 0 <= i < j < |xs| ==> StrLess(xs[i], xs[j])
    requires forall i, j :: 0 <= i < j < |ys| ==> StrLess(ys[i], ys[j])
    requires forall x :: x in xs <==> x in ys
    ensures xs[0] == ys[0]
  {
    assert xs[0] in ys && ys[0] in xs;
    var i :| 0 <= i < |xs| && xs[i] == ys[0];
    var j :| 0 <= j < |ys| && ys[j] == xs[0];
    if i > 0 && j > 0 {
      StrLessAsymmetric(xs[0], ys[0]);
    }
  }

  /** Past its first element a strictly increasing list holds the rest of its elements. */
  lemma TailMembers(xs: seq<string>, s: set<string>)
    requires |xs| > 0
    requires forall i, j :: 0 <= i < j < |xs| ==> StrLess(xs[i], xs[j])
    requires forall x :: x in xs <==> x in s
    ensures forall x :: x in xs[1..] <==> x in s - {xs[0]}
  {
    var rest := xs[1..];
    forall x ensures x in rest <==> x in s - {xs[0]} {
      if x in rest {
        var k :| 0 <= k < |rest| && rest[k] == x;
        assert xs[k + 1] == x;
        StrLessIrreflexive(x);
      }
      if x in s - {xs[0]} {
        var k :| 0 <= k < |xs| && xs[k] == x;
        assert rest[k - 1] == x;
      }
    }
  }

  /** The sorted list of a set is the only strictly increasing list of its
      elements. */
  lemma {:induction false} SortedFromSetUnique(xs: seq<string>, s: set<string>)
    requires forall i, j :: 0 <= i < j < |xs| ==> StrLess(xs[i], xs[j])
    requires forall x :: x in xs <==> x in s
    ensures SortedFromSet(s) == xs
    decreases |xs|
  {
    if |xs| == 0 {
      assert s == {};
    } else {
      var r := SortedFromSet(s);
      assert xs[0] in s;
      assert r == [r[0]] + SortedFromSet(s - {r[0]});
      SameHead(xs, r);
      TailMembers(xs, s);
      SortedFromSetUnique(xs[1..], s - {xs[0]});
      assert xs == [xs[0]] + xs[1..];
    }
  }

  /** The codes of a list of entries, in order. */
  function CodesOf(entries: seq<StockEntry>): (codes: seq<string>)
    ensures |codes| == |entries|
    ensures forall i :: 0 <= i < |entries| ==> codes[i] == entries[i].code
  {
    seq(|entries|, i requires 0 <= i < |entries| => entries[i].code)
  }

  /** The table holds a row for exactly the codes in the list. */
  lemma TableKeys(entries: seq<StockEntry>)
    ensures forall x :: x in CodesOf(entries) <==> x in StockTable(entries)
  {
    var t := StockTable(entries);
    var codes := CodesOf(entries);
    forall x ensures x in codes <==> x in t {
      if x in codes {
        var i :| 0 <= i < |codes| && codes[i] == x;
        assert entries[i].code == x;
      }
      if x in t {
        var i :| 0 <= i < |entries| && entries[i].code == x;
        assert codes[i] == x;
      }
    }
  }

  /** Reading the table back gives the saved list when its codes are
      strictly increasing, as after normalising records with distinct codes. */
  lemma SavedStocksReadBack(entries: seq<StockEntry>)
    requires forall i, j :: 0 <= i < j < |entries| ==> StrLess(entries[i].code, entries[j].code)
    ensures StocksFromTable(StockTable(entries)) == entries
  {
    var t := StockTable(entries);
    StrictRowsAt(entries);
    TableKeys(entries);
    SortedFromSetUnique(CodesOf(entries), t.Keys);
    RowsInKeyOrder(t, entries);
  }

  /** A table whose sorted keys are the codes of `entries`, each holding
      its entry, reads back as `entries`. */
  lemma RowsInKeyOrder(t: map<string, StockEntry>, entries: seq<StockEntry>)
    requires SortedFromSet(t.Keys) == CodesOf(entries)
    requires forall i :: 0 <= i < |entries| ==> entries[i].code in t && t[entries[i].code] == entries[i]
    ensures StocksFromTable(t) == entries
  {
    var codes := SortedFromSet(t.Keys);
    forall i | 0 <= i < |entries| ensures StocksFromTable(t)[i] == entries[i] {
      assert codes[i] == entries[i].code;
    }
  }

  /** With strictly increasing codes every entry is the row under its code. */
  lemma StrictRowsAt(entries: seq<StockEntry>)
    requires forall i, j :: 0 <= i < j < |entries| ==> StrLess(entries[i].code, entries[j].code)
    ensures forall i :: 0 <= i < |entries| ==> entries[i].code in StockTable(entries)
    ensures forall i :: 0 <= i < |entries| ==> StockTable(entries)[entries[i].code] == entries[i]
  {
    forall i | 0 <= i < |entries| ensures StockTable(entries)[entries[i].code] == entries[i] {
      forall j | i < j < |entries| ensures entries[j].code != entries[i].code {
        StrLessIrreflexive(entries[i].code);
      }
    }
  }

  // ---- load and save ----

  /** The settings a store is built with, and its own names. */
  datatype StoreConfig = StoreConfig(key: string, dbFile: string, pklFile: string, ttlSeconds: int, defaultVersion: string)

  /** The metadata manager the store creates from its settings. */
  function MetaConfig(cfg: StoreConfig): CM.Config {
    CM.Config(cfg.defaultVersion, cfg.ttlSeconds)
  }

  /** The wall clock (`now` in UTC seconds, `nowIso` its ISO text) and the
      parsers the metadata manager uses. */
  datatype Clock = Clock(now: int, nowIso: string, fromIso: string -> Option<CM.Stamp>, toInt: Cell -> Option<int>)

  /** `is_fresh`, or `None` when it raises: the store's entry checked against
      the configured ttl and version. */
  function IsFresh(cfg: StoreConfig, meta: CM.MetaFile, clock: Clock): Option<bool> {
    CM.IsStoreFresh(meta, MetaConfig(cfg), cfg.key, Some(cfg.ttlSeconds), Some(cfg.defaultVersion),
                    clock.now, clock.nowIso, clock.fromIso, clock.toInt)
  }

  /** The in-memory half of a store: whether data was loaded or saved, and the data. */
  datatype Memory<D> = Memory(loaded: bool, data: D)

  /** What `load` can read: the pickle snapshot when it exists and unpickles,
      and what `_load_from_db` returns. */
  datatype Snapshot<D> = Snapshot(pickle: Option<D>, db: D)

  /** `load(force)`: the memory afterwards and the data returned, or `None`
      when the freshness check raises.  `empty` is `_empty_data()`. */
  function Load<D>(st: Memory<D>, force: bool, cfg: StoreConfig, meta: CM.MetaFile, clock: Clock,
                   files: Snapshot<D>, empty: D): (r: Option<(Memory<D>, D)>)
    ensures r.Some? ==> r.value.0 == Memory(true, r.value.1)
    ensures st.loaded && !force ==> r == Some((st, st.data))
    ensures !(st.loaded && !force) ==> (r.None? <==> IsFresh(cfg, meta, clock).None?)
    ensures !st.loaded && !force && IsFresh(cfg, meta, clock) == Some(false) ==> r == Some((Memory(true, empty), empty))
    ensures !(st.loaded && !force) && IsFresh(cfg, meta, clock).Some? && (force || IsFresh(cfg, meta, clock) == Some(true)) ==>
              r.Some? && r.value.1 == (if files.pickle.Some? then files.pickle.value else files.db)
  {
    if st.loaded && !force then Some((st, st.data))
    else
      match IsFresh(cfg, meta, clock)
      case None => None
      case Some(current) =>
        if !current && !force then Some((Memory(true, empty), empty))
        else
          var d := if files.pickle.Some? then files.pickle.value else files.db;
          Some((Memory(true, d), d))
  }

  /** A second `load` without `force` reads nothing and returns what the first one did. */
  lemma LoadTwice<D>(st: Memory<D>, force: bool, cfg: StoreConfig, meta: CM.MetaFile, clock: Clock,
                     files: Snapshot<D>, empty: D,
                     meta': CM.MetaFile, clock': Clock, files': Snapshot<D>, empty': D)
    requires Load(st, force, cfg, meta, clock, files, empty).Some?
    ensures var (m, d) := Load(st, force, cfg, meta, clock, files, empty).value;
            Load(m, false, cfg, meta', clock', files', empty') == Some((m, d))
  {
  }

  /** The store entry `save` records: when, how many records, which files. */
  function EntryFor(cfg: StoreConfig, clock: Clock, count: int): CM.StoreMetadata {
    CM.StoreMetadata(clock.nowIso, count, cfg.dbFile, cfg.pklFile)
  }

  /** `version or self.config.default_version` */
  function SaveVersion(cfg: StoreConfig, version: Option<string>): string {
    if CM.Given(version) then version.value else cfg.defaultVersion
  }

  /** The metadata half of `save` once the records are normalised: the
      memory and the metadata document afterwards, or `None` when
      `update_store` raises. */
  function SaveNormalized<D>(cfg: StoreConfig, meta: CM.MetaFile, clock: Clock, data: D, count: int,
                             version: Option<string>): (r: Option<(Memory<D>, CM.MetaFile)>)
    ensures var u := CM.UpdateStore(meta, MetaConfig(cfg), cfg.key, EntryFor(cfg, clock, count),
                                    Some(SaveVersion(cfg, version)), clock.nowIso, clock.toInt);
            && (r.None? <==> u.None?)
            && (r.Some? ==> r.value.0 == Memory(true, data))
            && (r.Some? ==> var m := CM.Load(r.value.1, MetaConfig(cfg), clock.nowIso);
                            cfg.key in m.stores && m.stores[cfg.key] == CM.Written(EntryFor(cfg, clock, count)))
  {
    var u := CM.UpdateStore(meta, MetaConfig(cfg), cfg.key, EntryFor(cfg, clock, count),
                            Some(SaveVersion(cfg, version)), clock.nowIso, clock.toInt);
    if u.None? then None
    else
      CM.LoadSaved(u.value, MetaConfig(cfg), clock.nowIso);
      Some((Memory(true, data), CM.Save(u.value)))
  }

  /** Every field `_save_to_db` binds for a stock entry can be bound. */
  predicate StockBindable(e: StockEntry) {
    Bindable(e.name) && Bindable(e.market) && Bindable(e.listDate) && Bindable(e.source) && Bindable(e.updatedAt)
  }

  /** Every field `_save_to_db` binds for a classification entry can be bound. */
  predicate IndustryBindable(e: IndustryEntry) {
    Bindable(e.level1) && Bindable(e.level2) && Bindable(e.level3) && Bindable(e.industry)
    && Bindable(e.source) && Bindable(e.updatedAt)
  }

  /** `StockCacheStore.save`: `None` when normalising raises, when
      `_save_to_db` cannot bind a field (a non-empty dictionary value), or
      when the metadata update raises.  The memory then holds the normalised
      list, and the store's entry records its length. */
  function SaveStocks(cfg: StoreConfig, meta: CM.MetaFile, clock: Clock, records: seq<Json>, version: Option<string>)
    : (r: Option<(Memory<seq<StockEntry>>, CM.MetaFile)>)
    ensures NormalizeStocks(records, clock.nowIso).None? ==> r.None?
    ensures r.Some? ==> var n := NormalizeStocks(records, clock.nowIso);
            && n.Some? && r.value.0 == Memory(true, n.value)
            && var m := CM.Load(r.value.1, MetaConfig(cfg), clock.nowIso);
               cfg.key in m.stores && m.stores[cfg.key].Written? && m.stores[cfg.key].entry.recordCount == |n.value|
    ensures var n := NormalizeStocks(records, clock.nowIso);
            n.Some? && (exists i :: 0 <= i < |n.value| && !StockBindable(n.value[i])) ==> r.None?
    ensures r.Some? ==> forall i :: 0 <= i < |r.value.0.data| ==> StockBindable(r.value.0.data[i])
  {
    match NormalizeStocks(records, clock.nowIso)
    case None => None
    case Some(n) =>
      if exists i :: 0 <= i < |n| && !StockBindable(n[i]) then None
      else SaveNormalized(cfg, meta, clock, n, |n|, version)
  }

  /** Records without dictionary values normalise to entries `_save_to_db`
      can bind. */
  lemma PlainStocksBind(records: seq<Json>, now: string)
    requires NormalizeStocks(records, now).Some?
    requires forall rec: Json, k :: rec in records && k in rec ==> !rec[k].Dict?
    ensures forall i :: 0 <= i < |NormalizeStocks(records, now).value| ==> StockBindable(NormalizeStocks(records, now).value[i])
  {
    var n := NormalizeStocks(records, now).value;
    forall i | 0 <= i < |n| ensures StockBindable(n[i]) {
      NormalizedStock(records, now, n[i]);
      var rec :| rec in records && KeptStock(rec, now) == Some(n[i]);
      StockEntryBindable(rec, CodeText(CM.JGet(rec, "code")).value, now);
    }
  }

  /** The entry built from a record without dictionary values can be bound. */
  lemma StockEntryBindable(rec: Json, code: string, now: string)
    requires forall k :: k in rec ==> !rec[k].Dict?
    ensures StockBindable(StockEntryOf(rec, code, now))
  {
    forall k ensures !CM.JGet(rec, k).Dict? {
    }
  }

  /** A kept record whose name is a non-empty dictionary makes the whole
      save fail: the bind error comes before the metadata and memory update. */
  lemma DictNameBlocksSave(cfg: StoreConfig, meta: CM.MetaFile, clock: Clock, records: seq<Json>, version: Option<string>,
                           rec: Json)
    requires NormalizeStocks(records, clock.nowIso).Some?
    requires rec in records && KeptStock(rec, clock.nowIso).Some?
    requires CM.JGet(rec, "name").Dict? && Truthy(CM.JGet(rec, "name"))
    ensures SaveStocks(cfg, meta, clock, records, version).None?
  {
    var n := NormalizeStocks(records, clock.nowIso).value;
    var e := KeptStock(rec, clock.nowIso).value;
    NormalizedStock(records, clock.nowIso, e);
    var i :| 0 <= i < |n| && n[i] == e;
    assert !StockBindable(n[i]);
  }

  /** `IndustryCacheStore.save`, with `_count_records` the number of codes;
      `None` also when `_save_to_db` cannot bind a field. */
  function SaveIndustries(cfg: StoreConfig, meta: CM.MetaFile, clock: Clock, items: seq<(Cell, Cell)>, version: Option<string>)
    : (r: Option<(Memory<map<string, IndustryEntry>>, CM.MetaFile)>)
    ensures NormalizeIndustries(items, clock.nowIso).None? ==> r.None?
    ensures r.Some? ==> var n := NormalizeIndustries(items, clock.nowIso);
            && n.Some? && r.value.0 == Memory(true, n.value)
            && var m := CM.Load(r.value.1, MetaConfig(cfg), clock.nowIso);
               cfg.key in m.stores && m.stores[cfg.key].Written? && m.stores[cfg.key].entry.recordCount == |n.value|
    ensures var n := NormalizeIndustries(items, clock.nowIso);
            n.Some? && (exists c :: c in n.value && !IndustryBindable(n.value[c])) ==> r.None?
    ensures r.Some? ==> forall c :: c in r.value.0.data ==> IndustryBindable(r.value.0.data[c])
  {
    match NormalizeIndustries(items, clock.nowIso)
    case None => None
    case Some(n) =>
      if exists c :: c in n && !IndustryBindable(n[c]) then None
      else SaveNormalized(cfg, meta, clock, n, |n|, version)
  }

  /** After a save, `load` without `force` returns the saved data, whatever
      the files and the clock say. */
  lemma SaveThenLoad(cfg: StoreConfig, meta: CM.MetaFile, clock: Clock, records: seq<Json>, version: Option<string>,
                     meta': CM.MetaFile, clock': Clock, files: Snapshot<seq<StockEntry>>)
    requires SaveStocks(cfg, meta, clock, records, version).Some?
    ensures var st := SaveStocks(cfg, meta, clock, records, version).value.0;
            Load(st, false, cfg, meta', clock', files, []) == Some((st, NormalizeStocks(records, clock.nowIso).value))
  {
  }

  /** A save under the configured version leaves the store fresh for exactly
      `ttl_seconds` after the time it records. */
  lemma SaveThenFresh(cfg: StoreConfig, meta: CM.MetaFile, clock: Clock, data: seq<StockEntry>, version: Option<string>,
                      t0: int, later: Clock)
    requires |cfg.defaultVersion| > 0 && |clock.nowIso| > 0
    requires !CM.Given(version) || version.value == cfg.defaultVersion
    requires clock.fromIso(clock.nowIso) == Some(CM.Stamp(t0, Some(0)))
    requires later.fromIso == clock.fromIso && later.toInt == clock.toInt
    requires SaveNormalized(cfg, meta, clock, data, |data|, version).Some?
    ensures IsFresh(cfg, SaveNormalized(cfg, meta, clock, data, |data|, version).value.1, later) ==
              Some(later.now - t0 <= cfg.ttlSeconds)
  {
    CM.UpdateThenFresh(meta, MetaConfig(cfg), cfg.key, EntryFor(cfg, clock, |data|), cfg.defaultVersion,
                       clock.nowIso, later.nowIso, t0, later.now, cfg.ttlSeconds, clock.fromIso, clock.toInt);
  }

  /** A save under an explicit version other than the configured one leaves
      the store stale: every later `load` without `force` comes back empty. */
  lemma SaveOtherVersionStale(cfg: StoreConfig, meta: CM.MetaFile, clock: Clock, data: seq<StockEntry>, version: string,
                              later: Clock)
    requires |cfg.defaultVersion| > 0 && |version| > 0 && version != cfg.defaultVersion
    requires later.fromIso == clock.fromIso && later.toInt == clock.toInt
    requires SaveNormalized(cfg, meta, clock, data, |data|, Some(version)).Some?
    ensures IsFresh(cfg, SaveNormalized(cfg, meta, clock, data, |data|, Some(version)).value.1, later) == Some(false)
  {
    CM.OtherVersionStale(meta, MetaConfig(cfg), cfg.key, EntryFor(cfg, clock, |data|), version, cfg.defaultVersion,
                         clock.nowIso, later.nowIso, later.now, cfg.ttlSeconds, clock.fromIso, clock.toInt);
  }

  // ---- code-prefix search ----

  /** SQLite's `LIKE` without an `ESCAPE` clause: `%` matches any run of
      characters, `_` any single character, and ASCII letters match
      regardless of case. */
  predicate Like(pattern: string, s: string)
    decreases |pattern| + |s|
  {
    if |pattern| == 0 then |s| == 0
    else if pattern[0] == '%' then Like(pattern[1..], s) || (|s| > 0 && Like(pattern, s[1..]))
    else |s| > 0 && (pattern[0] == '_' || LowerChar(pattern[0]) == LowerChar(s[0])) && Like(pattern[1..], s[1..])
  }

  lemma {:induction false} LikeAnything(s: string)
    ensures Like("%", s)
    decreases |s|
  {
    if |s| > 0 {
      LikeAnything(s[1..]);
    }
  }

  /** Without wildcards in it, `prefix%` selects the strings that start with
      the prefix, ignoring the case of ASCII letters. */
  lemma {:induction false} LikePrefix(prefix: string, s: string)
    requires forall k :: 0 <= k < |prefix| ==> prefix[k] != '%' && prefix[k] != '_'
    ensures Like(prefix + "%", s) <==> StartsWith(Lower(s), Lower(prefix))
    decreases |prefix|
  {
    if |prefix| == 0 {
      LikeAnything(s);
      assert prefix + "%" == "%";
    } else {
      assert (prefix + "%")[1..] == prefix[1..] + "%";
      if |s| > 0 {
        LikePrefix(prefix[1..], s[1..]);
        assert Lower(s)[1..] == Lower(s[1..]);
        assert Lower(prefix)[1..] == Lower(prefix[1..]);
        StartsWithFirst(Lower(s), Lower(prefix));
      }
    }
  }

  lemma StartsWithFirst(s: string, p: string)
    requires |s| > 0 && |p| > 0
    ensures StartsWith(s, p) <==> s[0] == p[0] && StartsWith(s[1..], p[1..])
  {
    if |p| <= |s| {
      assert s[..|p|] == [s[0]] + s[1..][..|p| - 1];
      assert p == [p[0]] + p[1..];
    }
  }

  /** `LIMIT n`: a negative limit keeps everything. */
  function Take<T>(xs: seq<T>, limit: int): (r: seq<T>)
    ensures limit >= 0 ==> |r| == if limit < |xs| then limit else |xs|
    ensures limit < 0 ==> r == xs
    ensures forall i :: 0 <= i < |r| ==> r[i] == xs[i]
  {
    if 0 <= limit < |xs| then xs[..limit] else xs
  }

  /** The codes `WHERE code LIKE prefix% ORDER BY code LIMIT limit` selects:
      matching codes only, ascending, at most `limit` of them, and a matching
      code is left out only when `limit` smaller ones were taken. */
  function MatchingCodes(codes: set<string>, prefix: string, limit: int): (r: seq<string>)
    ensures forall c :: c in r ==> c in codes && Like(prefix + "%", c)
    ensures forall i, j :: 0 <= i < j < |r| ==> StrLess(r[i], r[j])
    ensures limit >= 0 ==> |r| <= limit
    ensures forall c :: c in codes && Like(prefix + "%", c) && c !in r ==>
              |r| == limit && forall i :: 0 <= i < |r| ==> StrLess(r[i], c)
  {
    var matching := set c | c in codes && Like(prefix + "%", c);
    var all := SortedFromSet(matching);
    TakeSmallest(all, matching, limit);
    Take(all, limit)
  }

  /** The first `limit` of a set's elements in ascending order: elements of
      the set only, ascending, and an element is left out only when `limit`
      smaller ones were taken. */
  lemma TakeSmallest(all: seq<string>, s: set<string>, limit: int)
    requires forall i, j :: 0 <= i < j < |all| ==> StrLess(all[i], all[j])
    requires forall x :: x in all <==> x in s
    ensures var r := Take(all, limit);
            && (forall c :: c in r ==> c in s)
            && (forall i, j :: 0 <= i < j < |r| ==> StrLess(r[i], r[j]))
            && (forall c :: c in s && c !in r ==> |r| == limit && forall i :: 0 <= i < |r| ==> StrLess(r[i], c))
  {
    var r := Take(all, limit);
    forall c | c in r ensures c in s {
      var i :| 0 <= i < |r| && r[i] == c;
      assert all[i] == c;
    }
    forall c | c in s && c !in r
      ensures |r| == limit && forall i :: 0 <= i < |r| ==> StrLess(r[i], c)
    {
      var j :| 0 <= j < |all| && all[j] == c;
      assert j >= |r|;
    }
  }

  /** `(prefix or "").strip()` */
  function StrippedText(s: Option<string>): string {
    if s.Some? then Strip(s.value) else ""
  }

  /** The codes `search_by_code_prefix` returns, or `None` when the freshness
      check raises: nothing from a stale store or for a blank prefix. */
  function SearchCodes(freshness: Option<bool>, codes: set<string>, prefix: Option<string>, limit: int): (r: Option<seq<string>>)
    ensures r.None? <==> freshness.None?
    ensures freshness == Some(false) || |StrippedText(prefix)| == 0 ==> r.None? || r == Some([])
    ensures r.Some? && |r.value| > 0 ==> freshness == Some(true) && r == Some(MatchingCodes(codes, StrippedText(prefix), limit))
    ensures freshness == Some(true) && |StrippedText(prefix)| > 0 ==> r == Some(MatchingCodes(codes, StrippedText(prefix), limit))
  {
    match freshness
    case None => None
    case Some(f) =>
      var p := StrippedText(prefix);
      if !f || |p| == 0 then Some([]) else Some(MatchingCodes(codes, p, limit))
  }

  /** `StockCacheStore.search_by_code_prefix`: the rows of the matching codes, in order. */
  function SearchStocks(cfg: StoreConfig, meta: CM.MetaFile, clock: Clock, table: map<string, StockEntry>,
                        prefix: Option<string>, limit: int): (r: Option<seq<StockEntry>>)
    ensures var cs := SearchCodes(IsFresh(cfg, meta, clock), table.Keys, prefix, limit);
            && (r.None? <==> cs.None?)
            && (r.Some? ==> |r.value| == |cs.value| && forall i :: 0 <= i < |r.value| ==> r.value[i] == table[cs.value[i]])
  {
    match SearchCodes(IsFresh(cfg, meta, clock), table.Keys, prefix, limit)
    case None => None
    case Some(cs) => Some(seq(|cs|, i requires 0 <= i < |cs| => table[cs[i]]))
  }

  /** `StockCacheStore.autocomplete_codes`: the codes of the rows the search
      returns, in the same order; for a table whose rows sit under their own
      codes, exactly the matching codes. */
  function AutocompleteStocks(cfg: StoreConfig, meta: CM.MetaFile, clock: Clock, table: map<string, StockEntry>,
                              prefix: Option<string>, limit: int): (r: Option<seq<string>>)
    ensures r.None? <==> IsFresh(cfg, meta, clock).None?
    ensures WellKeyed(table) ==> r == SearchCodes(IsFresh(cfg, meta, clock), table.Keys, prefix, limit)
  {
    match SearchStocks(cfg, meta, clock, table, prefix, limit)
    case None => None
    case Some(rows) =>
      var r := seq(|rows|, i requires 0 <= i < |rows| => rows[i].code);
      assert WellKeyed(table) ==> Some(r) == SearchCodes(IsFresh(cfg, meta, clock), table.Keys, prefix, limit) by {
        if WellKeyed(table) {
          var cs := SearchCodes(IsFresh(cfg, meta, clock), table.Keys, prefix, limit).value;
          assert forall i :: 0 <= i < |cs| ==> cs[i] in table.Keys;
          assert r == cs;
        }
      }
      Some(r)
  }

  /** `IndustryCacheStore.search_by_code_prefix`: the matching codes with
      their entries, as a dictionary in code order. */
  function SearchIndustries(cfg: StoreConfig, meta: CM.MetaFile, clock: Clock, table: map<string, IndustryEntry>,
                            prefix: Option<string>, limit: int): (r: Option<seq<(string, IndustryEntry)>>)
    ensures var cs := SearchCodes(IsFresh(cfg, meta, clock), table.Keys, prefix, limit);
            && (r.None? <==> cs.None?)
            && (r.Some? ==> |r.value| == |cs.value|
                            && forall i :: 0 <= i < |r.value| ==> r.value[i].0 == cs.value[i] && r.value[i].1 == table[cs.value[i]])
  {
    match SearchCodes(IsFresh(cfg, meta, clock), table.Keys, prefix, limit)
    case None => None
    case Some(cs) => Some(seq(|cs|, i requires 0 <= i < |cs| => (cs[i], table[cs[i]])))
  }

  /** `IndustryCacheStore.autocomplete_codes`: the keys of the search result, in order. */
  function AutocompleteIndustries(cfg: StoreConfig, meta: CM.MetaFile, clock: Clock, table: map<string, IndustryEntry>,
                                  prefix: Option<string>, limit: int): (r: Option<seq<string>>)
    ensures r == SearchCodes(IsFresh(cfg, meta, clock), table.Keys, prefix, limit)
  {
    var cs := SearchCodes(IsFresh(cfg, meta, clock), table.Keys, prefix, limit);
    match SearchIndustries(cfg, meta, clock, table, prefix, limit)
    case None => None
    case Some(found) =>
      FirstsOf(found, cs.value);
      Some(Firsts(found))
  }

  /** The first components of a sequence of pairs. */
  function Firsts<A, B>(ps: seq<(A, B)>): (r: seq<A>)
    ensures |r| == |ps| && forall i :: 0 <= i < |ps| ==> r[i] == ps[i].0
  {
    seq(|ps|, i requires 0 <= i < |ps| => ps[i].0)
  }

  lemma FirstsOf<A, B>(ps: seq<(A, B)>, xs: seq<A>)
    requires |ps| == |xs| && forall i :: 0 <= i < |ps| ==> ps[i].0 == xs[i]
    ensures Firsts(ps) == xs
  {
  }

  /** `get_by_code`: `None` when the freshness check raises; otherwise the
      row stored under the stripped code, if the store is fresh and the code
      is not blank. */
  function GetByCode<T>(freshness: Option<bool>, table: map<string, T>, code: Option<string>): (r: Option<Option<T>>)
    ensures r.None? <==> freshness.None?
    ensures r.Some? && r.value.Some? <==>
              freshness == Some(true) && |StrippedText(code)| > 0 && StrippedText(code) in table
    ensures r.Some? && r.value.Some? ==> r.value.value == table[StrippedText(code)]
  {
    match freshness
    case None => None
    case Some(f) =>
      var c := StrippedText(code);
      if !f || |c| == 0 || c !in table then Some(None) else Some(Some(table[c]))
  }
}
